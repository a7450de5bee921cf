/**
 The permission cache when neither a miss nor a mutation is one step: the middleware reads the
 tables and writes what it read into the cache later, a service commits its tables and clears the
 cache later, with any number of other steps in between.
 */
module RbacRaces {
  import opened Wrappers
  import opened Strings
  import opened Redis
  import opened Authscope
  import opened Rbac

  // ---------- Which operations change what a user holds ----------

  /** Does a permission, once live, reach this user? */
  predicate Reaches(t: Tables, user: Id, p: Id) {
    && user in t.users
    && (t.users[user].role == SUPERADMIN
        || (t.users[user].roleId.Some? && t.users[user].roleId.value != ""
            && (t.users[user].roleId.value, p) in t.grants))
  }

  function Held(t: Tables, user: Id): set<Id> {
    if user in t.users then Granted(t.perms, t.grants, t.users[user].role, t.users[user].roleId) else {}
  }

  /** The keys the user has without this one permission. */
  function OtherKeys(t: Tables, user: Id, p: Id): set<string> { KeysOf(t.perms, Held(t, user) - {p}) }

  predicate Adds(key: string, others: set<string>) { key != "" && key !in others }

  /** The guard, read off the tables before the operation. */
  predicate Disturbs(t: Tables, op: Op, user: Id) {
    match op
    case Assign(caller, role, ids) =>
      && MayAssign(t, caller, role, ids) && role != ""
      && user in t.users && t.users[user].role != SUPERADMIN && t.users[user].roleId == Some(role)
      && KeysOf(t.perms, set p | p in ids) != KeysOf(t.perms, Held(t, user))
    case ChangeRole(caller, who, newRole, roleId) =>
      && who == user && MayChangeRole(t, caller, user, newRole, roleId)
      && KeysOf(t.perms, Granted(t.perms, t.grants, NormalizeKey(newRole), Some(roleId)))
         != KeysOf(t.perms, Held(t, user))
    case CreatePermission(p, resource, action) =>
      && p !in t.perms && Reaches(t, user, p)
      && Adds(PermissionKey(resource, action), OtherKeys(t, user, p))
    case UpdatePermission(p, resource, action) =>
      && LivePermission(t, p) && Reaches(t, user, p)
      && var q, others := Patched(t.perms[p], resource, action), OtherKeys(t, user, p);
         && PermissionKey(q.resource, q.action) != KeyOfPermission(t, p)
         && (Adds(PermissionKey(q.resource, q.action), others) || Adds(KeyOfPermission(t, p), others))
    case DeletePermission(p) =>
      LivePermission(t, p) && Reaches(t, user, p) && Adds(KeyOfPermission(t, p), OtherKeys(t, user, p))
    case Register(who, _) => who == user && user !in t.users
    case AdminCreate(caller, who, newRole, roleId) => who == user && MayCreateUser(t, caller, who, newRole, roleId)
    case _ => false
  }

  function KeySet(key: string): set<string> { if key == "" then {} else {key} }

  lemma KeysWith(perms: map<Id, Permission>, ps: set<Id>, p: Id)
    requires p in ps && p in perms
    ensures KeysOf(perms, ps) == KeysOf(perms, ps - {p}) + KeySet(PermissionKey(perms[p].resource, perms[p].action))
  {
  }

  lemma KeysElsewhere(perms: map<Id, Permission>, ps: set<Id>, p: Id, row: Permission)
    requires p !in ps
    ensures KeysOf(perms[p := row], ps) == KeysOf(perms, ps)
  {
  }

  lemma AssignDisturbs(s: System, ttl: int, op: Op, user: Id)
    requires op.Assign?
    ensures UserKeys(Next(s, ttl, op).tables, user) != UserKeys(s.tables, user) <==> Disturbs(s.tables, op, user)
  {
    var t := s.tables;
    if MayAssign(t, op.caller, op.role, op.ids) && user in t.users {
      if op.role != "" && t.users[user].role != SUPERADMIN && t.users[user].roleId == Some(op.role) {
        AssignedIsHeld(s, ttl, op.caller, op.role, op.ids, user);
      } else {
        OthersKeepGrants(t, op.role, op.ids, user);
      }
    }
  }

  lemma OthersKeepGrants(t: Tables, role: Id, ids: seq<Id>, user: Id)
    requires user in t.users
    requires role == "" || t.users[user].role == SUPERADMIN || t.users[user].roleId != Some(role)
    ensures var row := t.users[user];
            Granted(t.perms, Replaced(t.grants, role, ids), row.role, row.roleId)
            == Granted(t.perms, t.grants, row.role, row.roleId)
  {
  }

  lemma ChangeRoleDisturbs(s: System, ttl: int, op: Op, user: Id)
    requires op.ChangeRole?
    ensures UserKeys(Next(s, ttl, op).tables, user) != UserKeys(s.tables, user) <==> Disturbs(s.tables, op, user)
  {
  }

  /** One permission's row is written: created, patched or marked deleted. */
  lemma RowWritten(t: Tables, p: Id, row: Permission, user: Id)
    requires user in t.users
    ensures var u, others := t.(perms := t.perms[p := row]), OtherKeys(t, user, p);
            && (LivePermission(t, p) && Reaches(t, user, p) ==>
                  KeysOf(t.perms, Held(t, user)) == others + KeySet(KeyOfPermission(t, p)))
            && (!(LivePermission(t, p) && Reaches(t, user, p)) ==> KeysOf(t.perms, Held(t, user)) == others)
            && (!row.deleted && Reaches(t, user, p) ==>
                  KeysOf(u.perms, Held(u, user)) == others + KeySet(PermissionKey(row.resource, row.action)))
            && (row.deleted || !Reaches(t, user, p) ==> KeysOf(u.perms, Held(u, user)) == others)
  {
    var u := t.(perms := t.perms[p := row]);
    var before, after := Held(t, user), Held(u, user);
    assert after - {p} == before - {p};
    KeysElsewhere(t.perms, before - {p}, p, row);
    if p in before { KeysWith(t.perms, before, p); } else { assert before - {p} == before; }
    if p in after { KeysWith(u.perms, after, p); } else { assert after - {p} == after; }
  }

  lemma KeySetsDiffer(others: set<string>, a: string, b: string)
    ensures others + KeySet(a) != others + KeySet(b) <==> a != b && (Adds(a, others) || Adds(b, others))
    ensures others + KeySet(a) != others <==> Adds(a, others)
  {
    assert Adds(a, others) ==> a in others + KeySet(a);
    assert Adds(b, others) ==> b in others + KeySet(b);
    assert !Adds(a, others) ==> others + KeySet(a) == others;
    assert !Adds(b, others) ==> others + KeySet(b) == others;
  }

  lemma UserKeysAreHeld(t: Tables, user: Id)
    requires user in t.users
    ensures UserKeys(t, user) == Some(KeysOf(t.perms, Held(t, user)))
  {
  }

  /** The tables with one permission's row written, and the user's keys before and after. */
  function With(t: Tables, p: Id, row: Permission): Tables { t.(perms := t.perms[p := row]) }

  lemma OutOfReach(t: Tables, p: Id, row: Permission, user: Id)
    requires user in t.users && !Reaches(t, user, p)
    ensures UserKeys(With(t, p, row), user) == UserKeys(t, user)
  {
    RowWritten(t, p, row, user);
    UserKeysAreHeld(t, user);
    UserKeysAreHeld(With(t, p, row), user);
  }

  lemma RowAppears(t: Tables, p: Id, row: Permission, user: Id)
    requires user in t.users && Reaches(t, user, p) && !LivePermission(t, p) && !row.deleted
    ensures UserKeys(With(t, p, row), user) != UserKeys(t, user)
            <==> Adds(PermissionKey(row.resource, row.action), OtherKeys(t, user, p))
  {
    RowWritten(t, p, row, user);
    KeySetsDiffer(OtherKeys(t, user, p), PermissionKey(row.resource, row.action), "");
    UserKeysAreHeld(t, user);
    UserKeysAreHeld(With(t, p, row), user);
  }

  lemma RowPatched(t: Tables, p: Id, row: Permission, user: Id)
    requires user in t.users && Reaches(t, user, p) && LivePermission(t, p) && !row.deleted
    ensures var key, others := PermissionKey(row.resource, row.action), OtherKeys(t, user, p);
            UserKeys(With(t, p, row), user) != UserKeys(t, user)
            <==> key != KeyOfPermission(t, p) && (Adds(key, others) || Adds(KeyOfPermission(t, p), others))
  {
    RowWritten(t, p, row, user);
    KeySetsDiffer(OtherKeys(t, user, p), PermissionKey(row.resource, row.action), KeyOfPermission(t, p));
    UserKeysAreHeld(t, user);
    UserKeysAreHeld(With(t, p, row), user);
  }

  lemma RowDisappears(t: Tables, p: Id, row: Permission, user: Id)
    requires user in t.users && Reaches(t, user, p) && LivePermission(t, p) && row.deleted
    ensures UserKeys(With(t, p, row), user) != UserKeys(t, user)
            <==> Adds(KeyOfPermission(t, p), OtherKeys(t, user, p))
  {
    RowWritten(t, p, row, user);
    KeySetsDiffer(OtherKeys(t, user, p), KeyOfPermission(t, p), "");
    UserKeysAreHeld(t, user);
    UserKeysAreHeld(With(t, p, row), user);
  }

  lemma RowStaysDeleted(t: Tables, p: Id, user: Id)
    requires user in t.users && p in t.perms && t.perms[p].deleted
    ensures With(t, p, t.perms[p].(deleted := true)) == t
  {
    assert t.perms[p := t.perms[p]] == t.perms;
  }

  lemma CreateDisturbs(s: System, ttl: int, op: Op, user: Id)
    requires op.CreatePermission? && user in s.tables.users && op.p !in s.tables.perms
    ensures UserKeys(Next(s, ttl, op).tables, user) != UserKeys(s.tables, user) <==> Disturbs(s.tables, op, user)
  {
    var t, row := s.tables, Permission(op.resource, op.action, false);
    assert Next(s, ttl, op).tables == With(t, op.p, row);
    if Reaches(t, user, op.p) { RowAppears(t, op.p, row, user); } else { OutOfReach(t, op.p, row, user); }
  }

  lemma UpdateDisturbs(s: System, ttl: int, op: Op, user: Id)
    requires op.UpdatePermission? && user in s.tables.users && LivePermission(s.tables, op.p)
    ensures UserKeys(Next(s, ttl, op).tables, user) != UserKeys(s.tables, user) <==> Disturbs(s.tables, op, user)
  {
    var t := s.tables;
    var row := Patched(t.perms[op.p], op.newResource, op.newAction);
    assert Next(s, ttl, op).tables == With(t, op.p, row) && !row.deleted;
    if Reaches(t, user, op.p) { RowPatched(t, op.p, row, user); } else { OutOfReach(t, op.p, row, user); }
  }

  lemma DeleteDisturbs(s: System, ttl: int, op: Op, user: Id)
    requires op.DeletePermission? && user in s.tables.users && op.p in s.tables.perms
    ensures UserKeys(Next(s, ttl, op).tables, user) != UserKeys(s.tables, user) <==> Disturbs(s.tables, op, user)
  {
    var t := s.tables;
    var row := t.perms[op.p].(deleted := true);
    assert Next(s, ttl, op).tables == With(t, op.p, row);
    if !LivePermission(t, op.p) {
      RowStaysDeleted(t, op.p, user);
    } else if Reaches(t, user, op.p) {
      RowDisappears(t, op.p, row, user);
    } else {
      OutOfReach(t, op.p, row, user);
    }
  }

  /** The guards are exact: an operation changes a user's keys exactly when its guard holds before it. */
  lemma DisturbsIffKeysChange(s: System, ttl: int, op: Op, user: Id)
    ensures UserKeys(Next(s, ttl, op).tables, user) != UserKeys(s.tables, user) <==> Disturbs(s.tables, op, user)
  {
    var t := s.tables;
    if op.Assign? {
      AssignDisturbs(s, ttl, op, user);
    } else if op.ChangeRole? {
      ChangeRoleDisturbs(s, ttl, op, user);
    } else if user in t.users {
      if op.CreatePermission? && op.p !in t.perms {
        CreateDisturbs(s, ttl, op, user);
      } else if op.UpdatePermission? && LivePermission(t, op.p) {
        UpdateDisturbs(s, ttl, op, user);
      } else if op.DeletePermission? && op.p in t.perms {
        DeleteDisturbs(s, ttl, op, user);
      }
    }
  }

  // ---------- A mutation is a commit and a clearing ----------

  /** The operation goes through, and its service then clears cached keys. */
  predicate Clears(t: Tables, op: Op) {
    match op
    case Assign(caller, role, ids) => MayAssign(t, caller, role, ids)
    case DeleteRole(role) => role in t.roles && !t.roles[role].deleted && !t.roles[role].isSystem
    case CreatePermission(p, _, _) => p !in t.perms
    case UpdatePermission(p, _, _) => LivePermission(t, p)
    case DeletePermission(_) => true
    case ChangeRole(caller, user, newRole, roleId) => MayChangeRole(t, caller, user, newRole, roleId)
    case DeleteUser(_) => true
    case _ => false
  }

  function Committed(s: System, ttl: int, op: Op): System { s.(tables := Rbac.Next(s, ttl, op).tables) }

  /** One user's key for an operation on that user, and all keys for any other. */
  function Cleared(s: System, op: Op): System {
    s.(cache := if op.ChangeRole? || op.DeleteUser? then ForgetUser(s.cache, op.user) else map[])
  }

  predicate Covers(op: Op, user: Id) { op.ChangeRole? || op.DeleteUser? ==> Trim(op.user) == user && user != "" }

  /** One after the other they are the whole operation. */
  lemma CommitThenClear(s: System, ttl: int, op: Op)
    requires Clears(s.tables, op)
    ensures Cleared(Committed(s, ttl, op), op) == Rbac.Next(s, ttl, op)
  {
  }

  /** Whoever is disturbed by a commit will have the entry cleared. */
  lemma CommitKeepsRight(s: System, ttl: int, op: Op, user: Id)
    requires Clears(s.tables, op) && CachedRight(s, user)
    ensures CachedRight(Committed(s, ttl, op), user) || Covers(op, user)
  {
    DisturbsIffKeysChange(s, ttl, op, user);
    if Get(s.cache, s.now, user).Some? && Disturbs(s.tables, op, user) { assert Covers(op, user); }
  }

  lemma ClearDrops(s: System, op: Op, user: Id)
    ensures if Covers(op, user) then user !in Cleared(s, op).cache
            else (user in Cleared(s, op).cache <==> user in s.cache)
                 && (user in s.cache ==> Cleared(s, op).cache[user] == s.cache[user])
  {
  }

  // ---------- Both in two steps, with anything in between ----------

  datatype Read = Read(user: Id, keys: set<string>)

  datatype Race = Race(s: System, pending: map<nat, Read>, owed: map<nat, Op>)

  datatype Step =
    | Do(op: Op)
    | Miss(call: nat, claimedUser: string)   // finds nothing cached and reads the tables
    | Fill(call: nat)                        // writes what it read
    | Commit(call: nat, op: Op)              // writes the tables and owes the clearing
    | Clear(call: nat)

  predicate Enabled(r: Race, step: Step) {
    match step
    case Do(_) => true
    case Miss(call, claimed) =>
      var user := Trim(claimed);
      call !in r.pending && user != "" && Get(r.s.cache, r.s.now, user).None? && UserKeys(r.s.tables, user).Some?
    case Fill(call) => call in r.pending
    case Commit(call, op) => call !in r.owed && Clears(r.s.tables, op)
    case Clear(call) => call in r.owed
  }

  function Write(s: System, ttl: int, read: Read): System {
    s.(cache := Put(s.cache, s.now, read.user, read.keys, ttl))
  }

  function After(r: Race, ttl: int, step: Step): Race
    requires Enabled(r, step)
  {
    match step
    case Do(op) => r.(s := Rbac.Next(r.s, ttl, op))
    case Miss(call, claimed) =>
      r.(pending := r.pending[call := Read(Trim(claimed), UserKeys(r.s.tables, Trim(claimed)).value)])
    case Fill(call) => r.(s := Write(r.s, ttl, r.pending[call]), pending := r.pending - {call})
    case Commit(call, op) => r.(s := Committed(r.s, ttl, op), owed := r.owed[call := op])
    case Clear(call) => r.(s := Cleared(r.s, r.owed[call]), owed := r.owed - {call})
  }

  datatype Run = Start(now: int, tables: Tables) | Later(before: Run, step: Step)

  predicate Possible(run: Run, ttl: int)
    decreases run, 0
  {
    run.Later? ==> Possible(run.before, ttl) && Enabled(State(run.before, ttl), run.step)
  }

  function State(run: Run, ttl: int): Race
    requires Possible(run, ttl)
    decreases run, 1
  {
    match run
    case Start(now, tables) => Race(System(now, tables, map[]), map[], map[])
    case Later(before, step) => After(State(before, ttl), ttl, step)
  }

  /** The operation, if any, that writes the tables at this step. */
  function Writing(step: Step): Option<Op> {
    match step
    case Do(op) => Some(op)
    case Commit(_, op) => Some(op)
    case _ => None
  }

  /** How many operations since a pending read have changed what its user holds. */
  function Disturbances(run: Run, ttl: int, call: nat): nat
    requires Possible(run, ttl)
  {
    match run
    case Start(_, _) => 0
    case Later(before, step) =>
      var r := State(before, ttl);
      if step.Miss? && step.call == call then 0
      else
        Disturbances(before, ttl, call)
        + if call in r.pending && Writing(step).Some? && Disturbs(r.s.tables, Writing(step).value, r.pending[call].user)
          then 1 else 0
  }

  /** A pending read is right while undisturbed, and wrong once disturbed by a single operation. */
  predicate ReadSound(r: Race, call: nat, disturbances: nat)
    requires call in r.pending
  {
    var read := r.pending[call];
    && Trim(read.user) == read.user && read.user != "" && read.user in r.s.tables.users
    && (disturbances == 0 ==> UserKeys(r.s.tables, read.user) == Some(read.keys))
    && (disturbances == 1 ==> UserKeys(r.s.tables, read.user) != Some(read.keys))
  }

  lemma UsersStay(s: System, ttl: int, op: Op)
    ensures s.tables.users.Keys <= Rbac.Next(s, ttl, op).tables.users.Keys
  {
  }

  lemma {:induction false} ReadsAreSound(run: Run, ttl: int, call: nat)
    requires Possible(run, ttl) && call in State(run, ttl).pending
    ensures ReadSound(State(run, ttl), call, Disturbances(run, ttl, call))
  {
    var r := State(run.before, ttl);
    if run.step.Miss? && run.step.call == call {
      TrimIsTrimmed(run.step.claimedUser);
      TrimKeepsTrimmed(Trim(run.step.claimedUser));
    } else {
      ReadsAreSound(run.before, ttl, call);
      var op := Writing(run.step);
      if op.Some? {
        UsersStay(r.s, ttl, op.value);
        DisturbsIffKeysChange(r.s, ttl, op.value, r.pending[call].user);
      }
    }
  }

  // ---------- How long a wrong entry lasts ----------

  /** When the user's entry was last filled by a read that had been disturbed, unless an undisturbed fill came later. */
  function StaleSince(run: Run, ttl: int, user: Id): Option<int>
    requires Possible(run, ttl)
  {
    match run
    case Start(_, _) => None
    case Later(before, step) =>
      var r := State(before, ttl);
      if !step.Fill? || r.pending[step.call].user != user then StaleSince(before, ttl, user)
      else if Disturbances(before, ttl, step.call) > 0 then Some(r.s.now)
      else None
  }

  /** Some commit has yet to clear the user's entry. */
  ghost predicate Owed(r: Race, user: Id) { exists c :: c in r.owed && Covers(r.owed[c], user) }

  predicate EntryNamed(s: System, user: Id) {
    user in s.cache ==> user in s.tables.users && Trim(user) == user && user != ""
  }

  /**
   A user's entry is right, or about to be cleared, or it dies one cache lifetime after the
   disturbed fill that wrote it.
   */
  ghost predicate EntrySound(r: Race, ttl: int, user: Id, since: Option<int>) {
    && EntryNamed(r.s, user)
    && (|| CachedRight(r.s, user) || Owed(r, user)
        || (since.Some? && user in r.s.cache && r.s.cache[user].expiry == Some(since.value + ttl)))
  }

  /** An operation writes a user's entry rightly, drops it, or leaves it alone. */
  lemma EntryAfter(s: System, ttl: int, op: Op, user: Id)
    requires EntryNamed(s, user)
    ensures var n := Rbac.Next(s, ttl, op);
            && EntryNamed(n, user)
            && (CachedRight(n, user) || (user in s.cache && user in n.cache && n.cache[user] == s.cache[user]))
  {
    if op.Ask? {
      TrimIsTrimmed(op.user);
      TrimKeepsTrimmed(Trim(op.user));
    }
  }

  lemma OperationKeepsEntry(r: Race, ttl: int, op: Op, user: Id, since: Option<int>)
    requires EntrySound(r, ttl, user, since)
    ensures EntrySound(r.(s := Rbac.Next(r.s, ttl, op)), ttl, user, since)
  {
    EntryAfter(r.s, ttl, op, user);
    if CachedRight(r.s, user) { StepKeepsRight(r.s, ttl, op, user); }
    if Owed(r, user) { assert Owed(r.(s := Rbac.Next(r.s, ttl, op)), user); }
  }

  lemma CommitKeepsEntry(r: Race, ttl: int, call: nat, op: Op, user: Id, since: Option<int>)
    requires EntrySound(r, ttl, user, since) && Enabled(r, Commit(call, op))
    ensures EntrySound(After(r, ttl, Commit(call, op)), ttl, user, since)
  {
    var n := After(r, ttl, Commit(call, op));
    UsersStay(r.s, ttl, op);
    if CachedRight(r.s, user) {
      CommitKeepsRight(r.s, ttl, op, user);
      if Covers(op, user) { assert n.owed[call] == op; }
    } else if c :| c in r.owed && Covers(r.owed[c], user) {
      assert c in n.owed && n.owed[c] == r.owed[c];
    }
  }

  lemma ClearKeepsEntry(r: Race, ttl: int, call: nat, user: Id, since: Option<int>)
    requires EntrySound(r, ttl, user, since) && Enabled(r, Clear(call))
    ensures EntrySound(After(r, ttl, Clear(call)), ttl, user, since)
  {
    var n := After(r, ttl, Clear(call));
    ClearDrops(r.s, r.owed[call], user);
    if c :| c in r.owed && Covers(r.owed[c], user) {
      if c != call { assert c in n.owed && n.owed[c] == r.owed[c]; }
    }
  }

  lemma {:induction false} EntriesAreSound(run: Run, ttl: int, user: Id)
    requires Possible(run, ttl) && ttl > 0
    ensures EntrySound(State(run, ttl), ttl, user, StaleSince(run, ttl, user))
  {
    if run.Later? {
      var r, since := State(run.before, ttl), StaleSince(run.before, ttl, user);
      EntriesAreSound(run.before, ttl, user);
      match run.step
      case Do(op) => OperationKeepsEntry(r, ttl, op, user, since);
      case Miss(_, _) => if Owed(r, user) { assert Owed(State(run, ttl), user); }
      case Fill(call) => FillKeepsEntry(run, ttl, user);
      case Commit(call, op) => CommitKeepsEntry(r, ttl, call, op, user, since);
      case Clear(call) => ClearKeepsEntry(r, ttl, call, user, since);
    }
  }

  lemma FillKeepsEntry(run: Run, ttl: int, user: Id)
    requires Possible(run, ttl) && ttl > 0 && run.Later? && run.step.Fill?
    requires EntrySound(State(run.before, ttl), ttl, user, StaleSince(run.before, ttl, user))
    ensures EntrySound(State(run, ttl), ttl, user, StaleSince(run, ttl, user))
  {
    ReadsAreSound(run.before, ttl, run.step.call);
    if Owed(State(run.before, ttl), user) { assert Owed(State(run, ttl), user); }
  }

  /**
   Over every run: an entry that disagrees with the tables is about to be cleared, or it was filled
   from a read that some operation had disturbed, less than one cache lifetime before.
   */
  lemma StaleEntriesDie(run: Run, ttl: int, user: Id)
    requires Possible(run, ttl) && ttl > 0
    requires !CachedRight(State(run, ttl).s, user) && !Owed(State(run, ttl), user)
    ensures StaleSince(run, ttl, user).Some?
    ensures StaleSince(run, ttl, user).value <= State(run, ttl).s.now < StaleSince(run, ttl, user).value + ttl
  {
    EntriesAreSound(run, ttl, user);
    StaleSincePast(run, ttl, user);
  }

  lemma {:induction false} StaleSincePast(run: Run, ttl: int, user: Id)
    requires Possible(run, ttl)
    ensures StaleSince(run, ttl, user).Some? ==> StaleSince(run, ttl, user).value <= State(run, ttl).s.now
  {
    if run.Later? {
      StaleSincePast(run.before, ttl, user);
      if run.step.Do? { TimeGoesOn(State(run.before, ttl).s, ttl, run.step.op); }
    }
  }

  lemma TimeGoesOn(s: System, ttl: int, op: Op)
    ensures s.now <= Rbac.Next(s, ttl, op).now
  {
  }

  // ---------- When the cache always agrees ----------

  /** Each user's entry agrees with the tables, or a commit has yet to clear it. */
  ghost predicate Settled(r: Race) { forall user :: CachedRight(r.s, user) || Owed(r, user) }

  /** With nothing owed that is agreement. */
  lemma SettledIsCoherent(r: Race)
    requires Settled(r) && r.owed == map[]
    ensures Coherent(r.s)
  {
  }

  ghost predicate AlwaysSettled(run: Run, ttl: int)
    requires Possible(run, ttl)
  {
    Settled(State(run, ttl)) && (run.Later? ==> AlwaysSettled(run.before, ttl))
  }

  /**
   Unless its entry was still to be cleared, no fill was straddled by more than this many
   operations that changed what its user holds.
   */
  ghost predicate StraddledAtMost(run: Run, ttl: int, most: nat)
    requires Possible(run, ttl)
  {
    run.Later? ==>
      && StraddledAtMost(run.before, ttl, most)
      && (run.step.Fill? ==>
            var r := State(run.before, ttl);
            Disturbances(run.before, ttl, run.step.call) <= most || Owed(r, r.pending[run.step.call].user))
  }

  predicate FillsCurrent(r: Race, call: nat)
    requires call in r.pending
  {
    UserKeys(r.s.tables, r.pending[call].user) == Some(r.pending[call].keys)
  }

  /** Whatever straddled them, all fills wrote what the tables gave at that moment, or what was still to be cleared. */
  ghost predicate EveryFillCurrent(run: Run, ttl: int)
    requires Possible(run, ttl)
  {
    run.Later? ==>
      && EveryFillCurrent(run.before, ttl)
      && (run.step.Fill? ==> FillSettles(State(run.before, ttl), run.step.call))
  }

  ghost predicate FillSettles(r: Race, call: nat)
    requires call in r.pending
  {
    FillsCurrent(r, call) || Owed(r, r.pending[call].user)
  }

  lemma WriteIsRightIff(s: System, ttl: int, read: Read)
    requires Coherent(s) && Trim(read.user) == read.user && read.user != ""
    ensures Coherent(Write(s, ttl, read)) <==> UserKeys(s.tables, read.user) == Some(read.keys)
  {
    var n := Write(s, ttl, read);
    assert Get(n.cache, n.now, read.user) == Some(read.keys);
    assert CachedRight(n, read.user) <==> UserKeys(s.tables, read.user) == Some(read.keys);
    forall other | other != read.user ensures CachedRight(n, other) { assert CachedRight(s, other); }
  }

  lemma FillSettlesIff(r: Race, ttl: int, call: nat)
    requires Settled(r) && call in r.pending
    requires Trim(r.pending[call].user) == r.pending[call].user && r.pending[call].user != ""
    ensures Settled(After(r, ttl, Fill(call))) <==> FillSettles(r, call)
  {
    var n, read := After(r, ttl, Fill(call)), r.pending[call];
    assert Get(n.s.cache, n.s.now, read.user) == Some(read.keys);
    forall user ensures Owed(n, user) <==> Owed(r, user) { }
    forall user | user != read.user ensures CachedRight(n.s, user) || Owed(n, user) {
      assert CachedRight(r.s, user) || Owed(r, user);
    }
  }

  /** Every other step keeps every user settled. */
  lemma OthersKeepSettled(r: Race, ttl: int, step: Step)
    requires Settled(r) && Enabled(r, step) && !step.Fill?
    ensures Settled(After(r, ttl, step))
  {
    var n := After(r, ttl, step);
    forall user ensures CachedRight(n.s, user) || Owed(n, user) {
      assert CachedRight(r.s, user) || Owed(r, user);
      match step
      case Do(op) =>
        if CachedRight(r.s, user) { StepKeepsRight(r.s, ttl, op, user); } else { assert Owed(n, user); }
      case Miss(_, _) => if Owed(r, user) { assert Owed(n, user); }
      case Commit(call, op) => CommitSettles(r, ttl, call, op, user);
      case Clear(call) => ClearSettles(r, ttl, call, user);
    }
  }

  lemma CommitSettles(r: Race, ttl: int, call: nat, op: Op, user: Id)
    requires Enabled(r, Commit(call, op)) && (CachedRight(r.s, user) || Owed(r, user))
    ensures var n := After(r, ttl, Commit(call, op));
            CachedRight(n.s, user) || Owed(n, user)
  {
    var n := After(r, ttl, Commit(call, op));
    if CachedRight(r.s, user) {
      CommitKeepsRight(r.s, ttl, op, user);
      if Covers(op, user) { assert n.owed[call] == op; }
    } else {
      var c :| c in r.owed && Covers(r.owed[c], user);
      assert c in n.owed && n.owed[c] == r.owed[c];
    }
  }

  lemma ClearSettles(r: Race, ttl: int, call: nat, user: Id)
    requires Enabled(r, Clear(call)) && (CachedRight(r.s, user) || Owed(r, user))
    ensures var n := After(r, ttl, Clear(call));
            CachedRight(n.s, user) || Owed(n, user)
  {
    var n := After(r, ttl, Clear(call));
    ClearDrops(r.s, r.owed[call], user);
    if !CachedRight(r.s, user) {
      var c :| c in r.owed && Covers(r.owed[c], user);
      if c != call { assert c in n.owed && n.owed[c] == r.owed[c]; }
    }
  }

  lemma StepSettledIff(run: Run, ttl: int)
    requires Possible(run, ttl) && run.Later? && Settled(State(run.before, ttl))
    ensures Settled(State(run, ttl)) <==> (run.step.Fill? ==> FillSettles(State(run.before, ttl), run.step.call))
  {
    var r := State(run.before, ttl);
    if run.step.Fill? {
      ReadsAreSound(run.before, ttl, run.step.call);
      FillSettlesIff(r, ttl, run.step.call);
    } else {
      OthersKeepSettled(r, ttl, run.step);
    }
  }

  /**
   Over every run: if no fill is straddled by an operation that changes what its user holds and
   has already cleared, then in every state each entry agrees with the tables or is about to be
   cleared; and if none is straddled by two of them, that condition is exact. Two may cancel out
   (TwoMayCancel); in general every fill must have written what the tables gave at that moment.
   */
  lemma {:induction false} CoherentIffNotStraddled(run: Run, ttl: int)
    requires Possible(run, ttl)
    ensures StraddledAtMost(run, ttl, 0) ==> AlwaysSettled(run, ttl)
    ensures StraddledAtMost(run, ttl, 1) ==> (AlwaysSettled(run, ttl) <==> StraddledAtMost(run, ttl, 0))
    ensures AlwaysSettled(run, ttl) <==> EveryFillCurrent(run, ttl)
  {
    if run.Later? {
      CoherentIffNotStraddled(run.before, ttl);
      if Settled(State(run.before, ttl)) { StepSettledIff(run, ttl); }
      if run.step.Fill? { ReadsAreSound(run.before, ttl, run.step.call); }
    }
  }

  /** The case of one operation between the read and the write: the entry is wrong exactly when its guard holds. */
  lemma LateFillIsStale(s: System, ttl: int, op: Op, user: Id)
    requires Coherent(s) && Trimmed(user) && user != "" && UserKeys(s.tables, user).Some?
    ensures Coherent(Write(Rbac.Next(s, ttl, op), ttl, Read(user, UserKeys(s.tables, user).value)))
            <==> !Disturbs(s.tables, op, user)
  {
    StepKeepsCoherent(s, ttl, op);
    TrimKeepsTrimmed(user);
    WriteIsRightIff(Rbac.Next(s, ttl, op), ttl, Read(user, UserKeys(s.tables, user).value));
    DisturbsIffKeysChange(s, ttl, op, user);
  }

  // ---------- Runs in which it goes wrong, and in which it does not ----------

  function Assigning(ids: seq<Id>): Op { Assign(Scope("", "", {}), "r", ids) }

  /** The user's one permission is taken away between the read and the write. */
  function RevokedMeanwhile(w: Names): Run {
    Later(Later(Later(Start(0, OneGrant(w)), Miss(0, w.user)), Do(Assigning([]))), Fill(0))
  }

  /** It is taken away and given back between the read and the write. */
  function GivenBack(w: Names): Run {
    Later(Later(Later(Later(Start(0, OneGrant(w)), Miss(0, w.user)), Do(Assigning([]))), Do(Assigning(["p"]))), Fill(0))
  }

  ghost predicate RevokedButAllowed(run: Run, ttl: int, w: Names)
    requires Possible(run, ttl)
  {
    var s := State(run, ttl).s;
    && w.user in s.tables.users && s.tables.users[w.user].role == w.role
    && !Holds(s.tables, w.user, w.resource, w.action)
    && Middleware(s, ttl, w.role, w.user, w.resource, w.action).1 == Allowed
  }

  /** A revoked permission is let through for as long as the late entry lives. */
  lemma RevokedStillAllowed(ttl: int)
    ensures exists run, w :: Possible(run, ttl) && RevokedButAllowed(run, ttl, w)
  {
    var w := SomeNames();
    RevokedThenAllowed(ttl, w);
  }

  lemma MissOfOne(ttl: int, w: Names)
    requires Usual(w)
    ensures var run := Later(Start(0, OneGrant(w)), Miss(0, w.user));
            && Possible(run, ttl)
            && State(run, ttl) == Race(System(0, OneGrant(w), map[]),
                                       map[0 := Read(w.user, {w.resource + ":" + w.action})], map[])
  {
    OneGrantIsHeld(w);
    TrimKeepsTrimmed(w.user);
    assert Possible(Start(0, OneGrant(w)), ttl);
  }

  lemma AssignedAs(ttl: int, w: Names, s: System, ids: seq<Id>)
    requires Usual(w) && s.tables.(grants := {}) == OneGrant(w).(grants := {}) && NoDuplicates(ids)
    requires forall g :: g in s.tables.grants ==> g.0 == "r"
    requires forall k :: 0 <= k < |ids| ==> ids[k] == "p"
    ensures Rbac.Next(s, ttl, Assigning(ids))
         == System(s.now, OneGrant(w).(grants := set p | p in ids :: ("r", p)), map[])
  {
  }

  lemma RevokedThenAllowed(ttl: int, w: Names)
    requires Usual(w)
    ensures Possible(RevokedMeanwhile(w), ttl) && RevokedButAllowed(RevokedMeanwhile(w), ttl, w)
  {
    var keys := {w.resource + ":" + w.action};
    MissOfOne(ttl, w);
    var s := System(0, OneGrant(w), map[]);
    AssignedAs(ttl, w, s, []);
    var n := Rbac.Next(s, ttl, Assigning([]));
    assert n.tables.grants == {};
    NothingIsHeld(n.tables, w);
    KeyIsAllowed(Write(n, ttl, Read(w.user, keys)), ttl, w);
  }

  lemma NothingIsHeld(t: Tables, w: Names)
    requires Usual(w) && t == OneGrant(w).(grants := {})
    ensures UserPermissions(t, w.user) == Some({}) && UserKeys(t, w.user) == Some({})
  {
    UserKeysAreHeld(t, w.user);
    assert Held(t, w.user) == {};
    assert KeysOf(t.perms, {}) == {};
  }

  /** Two disturbing operations that cancel out: the straddled fill is right, and so is every state before it. */
  lemma TwoMayCancel(ttl: int)
    ensures exists run :: Possible(run, ttl) && !StraddledAtMost(run, ttl, 1) && AlwaysSettled(run, ttl)
  {
    var w := SomeNames();
    GivenBackIsRight(ttl, w);
    assert Possible(GivenBack(w), ttl);
  }

  lemma GivenBackIsRight(ttl: int, w: Names)
    requires Usual(w)
    ensures Possible(GivenBack(w), ttl)
    ensures !StraddledAtMost(GivenBack(w), ttl, 1) && AlwaysSettled(GivenBack(w), ttl)
  {
    var s0 := System(0, OneGrant(w), map[]);
    var s1 := Rbac.Next(s0, ttl, Assigning([]));
    AssignedAs(ttl, w, s0, []);
    AssignedAs(ttl, w, s1, ["p"]);
    assert (set p | p in ["p"] :: ("r", p)) == OneGrant(w).grants;
    NothingIsHeld(s1.tables, w);
    OneGrantIsHeld(w);
    MissOfOne(ttl, w);
    var missed := Later(Start(0, OneGrant(w)), Miss(0, w.user));
    var revoked := Later(missed, Do(Assigning([])));
    var back := Later(revoked, Do(Assigning(["p"])));
    OneOperation(missed, ttl, Assigning([]), 0);
    OneOperation(revoked, ttl, Assigning(["p"]), 0);
    assert State(back, ttl).s == s0 && State(back, ttl).owed == map[];
    FillSettlesAtLast(back, ttl, 0);
  }

  /** A run without straddled fills, and a last fill that writes what the tables give. */
  lemma FillSettlesAtLast(run: Run, ttl: int, call: nat)
    requires Possible(run, ttl) && StraddledAtMost(run, ttl, 0) && call in State(run, ttl).pending
    requires FillsCurrent(State(run, ttl), call) && !Owed(State(run, ttl), State(run, ttl).pending[call].user)
    requires Disturbances(run, ttl, call) > 1
    ensures var filled := Later(run, Fill(call));
            Possible(filled, ttl) && AlwaysSettled(filled, ttl) && !StraddledAtMost(filled, ttl, 1)
  {
    CoherentIffNotStraddled(run, ttl);
    StepSettledIff(Later(run, Fill(call)), ttl);
  }

  /** What one operation does to a run with a pending read. */
  lemma OneOperation(run: Run, ttl: int, op: Op, call: nat)
    requires Possible(run, ttl) && call in State(run, ttl).pending
    ensures var next, r := Later(run, Do(op)), State(run, ttl);
            && Possible(next, ttl) && State(next, ttl) == r.(s := Rbac.Next(r.s, ttl, op))
            && StraddledAtMost(next, ttl, 0) == StraddledAtMost(run, ttl, 0)
            && var user := r.pending[call].user;
               Disturbances(next, ttl, call) == Disturbances(run, ttl, call)
               + if UserKeys(State(next, ttl).s.tables, user) != UserKeys(r.s.tables, user) then 1 else 0
  {
    DisturbsIffKeysChange(State(run, ttl).s, ttl, op, State(run, ttl).pending[call].user);
  }
}
