/**
 A user's menus as the repository and the service compute them from the permission tables, and
 the menu update that can make the service's walk endless.
 */
module MenuService {
  import opened Wrappers
  import opened Sorting
  import opened Menus
  import Rbac
  import Authscope

  // ---------- Which resources a user has ----------

  /** The resources the repository's join finds for a role. */
  function RoleResources(r: Rbac.Tables, roleId: Id): set<string> {
    set p | p in r.perms && Rbac.LivePermission(r, p) && (roleId, p) in r.grants :: r.perms[p].resource
  }

  /** The resources the service takes from a user's permissions; blank ones are skipped. */
  function UserResources(r: Rbac.Tables, user: Id): set<string> {
    var ps := Rbac.UserPermissions(r, user);
    if ps.None? then {} else set p | p in ps.value && p in r.perms && r.perms[p].resource != "" :: r.perms[p].resource
  }

  predicate HasRole(u: Rbac.User) {
    u.role != Authscope.SUPERADMIN && u.roleId.Some? && u.roleId.value != ""
  }

  predicate NoBlankName(t: Table) { forall id :: id in t ==> t[id].name != "" }

  lemma SameButBlank(r: Rbac.Tables, user: Id)
    requires user in r.users && HasRole(r.users[user])
    ensures UserResources(r, user) == RoleResources(r, r.users[user].roleId.value) - {""}
  {
  }

  lemma BlankNamesNothing(t: Table, resources: set<string>, s: set<Id>)
    requires NoBlankName(t) && IsLeast(t, resources, s)
    ensures IsLeast(t, resources - {""}, s)
  {
    assert forall id :: Permitted(t, resources - {""}, id) <==> Permitted(t, resources, id);
    forall bigger | Covers(t, resources - {""}, bigger) ensures s <= bigger { assert Covers(t, resources, bigger); }
  }

  /** A user with a role gets the same menus from both, unless a menu's name is blank. */
  lemma SameMenus(t: Table, r: Rbac.Tables, user: Id, searched: set<Id>, walked: set<Id>)
    requires user in r.users && HasRole(r.users[user]) && NoBlankName(t)
    requires IsLeast(t, RoleResources(r, r.users[user].roleId.value), searched)
    requires IsLeast(t, UserResources(r, user), walked)
    ensures searched == walked
  {
    SameButBlank(r, user);
    BlankNamesNothing(t, RoleResources(r, r.users[user].roleId.value), searched);
    LeastIsUnique(t, UserResources(r, user), searched, walked);
  }

  // ---------- The two lists ----------

  function Rank(t: Table, id: Id): (int, string) { if id in t then (t[id].order, t[id].display) else (0, "") }

  /** By the order number, and by the display name among equal ones. */
  predicate Ranked(t: Table, ids: seq<Id>) {
    forall j, k :: 0 <= j < k < |ids| && ids[j] in t && ids[k] in t ==>
      || t[ids[j]].order < t[ids[k]].order
      || (t[ids[j]].order == t[ids[k]].order && LexLeq(t[ids[j]].display, t[ids[k]].display))
  }

  /** By the order number alone. */
  predicate ByOrder(t: Table, ids: seq<Id>) {
    forall j, k :: 0 <= j < k < |ids| && ids[j] in t && ids[k] in t ==> t[ids[j]].order <= t[ids[k]].order
  }

  lemma {:induction false} FilterByOrder(t: Table, ids: seq<Id>, allowed: set<Id>)
    requires ByOrder(t, ids)
    ensures ByOrder(t, Filter(ids, allowed))
  {
    if ids != [] {
      var n := |ids| - 1;
      var front := Filter(ids[..n], allowed);
      FilterByOrder(t, ids[..n], allowed);
      FilterElements(ids[..n], allowed);
      forall j | 0 <= j < |front| && front[j] in t && ids[n] in t ensures t[front[j]].order <= t[ids[n]].order {
        assert front[j] in Elements(front);
        var k :| 0 <= k < n && ids[k] == front[j];
      }
    }
  }

  method SortMenus(t: Table, ids: seq<Id>) returns (ret: seq<Id>)
    requires Distinct(ids)
    ensures Elements(ret) == Elements(ids) && Distinct(ret) && Ranked(t, ret)
  {
    PairOrders();
    ret := Sort(ids, (a: Id, b: Id) => PairLeq(Rank(t, a), Rank(t, b)));
    SameElements(ids, ret);
  }

  lemma SameElements(a: seq<Id>, b: seq<Id>)
    requires multiset(a) == multiset(b) && Distinct(a)
    ensures Elements(a) == Elements(b) && Distinct(b)
  {
    forall id ensures id in a <==> id in b { assert id in multiset(a) <==> id in multiset(b); }
    OnceEach(a);
    forall j, k | 0 <= j < k < |b| ensures b[j] != b[k] { Twice(b, j, k); }
  }

  lemma Twice(b: seq<Id>, j: nat, k: nat)
    requires j < k < |b|
    ensures b[j] == b[k] ==> multiset(b)[b[k]] >= 2
  {
    assert b == b[..k] + [b[k]] + b[k + 1..] && b[j] in b[..k];
  }

  lemma {:induction false} OnceEach(a: seq<Id>)
    requires Distinct(a)
    ensures forall id :: multiset(a)[id] <= 1
  {
    if a != [] {
      var n := |a| - 1;
      OnceEach(a[..n]);
      assert a == a[..n] + [a[n]];
      assert a[n] !in a[..n];
    }
  }

  // ---------- Which updates make a walk endless ----------

  datatype Patch = Patch(display: string, parent: Option<Id>, order: Option<int>, active: Option<bool>)

  predicate MayUpdate(t: Table, id: Id, patch: Patch) {
    id in t && !t[id].deleted && (patch.parent.Some? ==> patch.parent.value in t)
  }

  function Updated(t: Table, id: Id, patch: Patch): Table
    requires id in t
  {
    var row := t[id];
    t[id := row.(display := if patch.display != "" then patch.display else row.display,
                 parent := if patch.parent.Some? then patch.parent else row.parent,
                 order := if patch.order.Some? then patch.order.value else row.order,
                 active := if patch.active.Some? then patch.active.value else row.active)]
  }

  /** An update writes the parts it names of that one menu and keeps all else; a blank name names nothing. */
  lemma UpdateWrites(t: Table, id: Id, patch: Patch)
    requires id in t
    ensures var u := Updated(t, id, patch);
            && u.Keys == t.Keys && (forall other :: other in t && other != id ==> u[other] == t[other])
            && (if patch.display == "" then u[id].display == t[id].display else u[id].display == patch.display)
            && (if patch.parent.None? then u[id].parent == t[id].parent else u[id].parent == patch.parent)
            && (if patch.order.None? then u[id].order == t[id].order else u[id].order == patch.order.value)
            && (if patch.active.None? then u[id].active == t[id].active else u[id].active == patch.active.value)
            && u[id].name == t[id].name && u[id].deleted == t[id].deleted
  {
  }

  /** A menu put out of use is in nobody's menus, by either algorithm, and one in use is in a superadmin's. */
  lemma InactiveIsHidden(t: Table, id: Id, patch: Patch, resources: set<string>, shown: set<Id>)
    requires id in t && patch.active == Some(false) && IsLeast(Updated(t, id, patch), resources, shown)
    ensures id !in shown
  {
    LeastIsAccessible(Updated(t, id, patch), resources, shown);
  }

  ghost predicate AllWalksEnd(t: Table) { forall id :: WalkEnds(t, id) }

  /** Does the walk from a menu come to another, or to one whose parent it is? */
  ghost predicate LeadsTo(t: Table, from: Id, id: Id) {
    from == id || exists n: nat :: Ancestor(t, from, n).Some? && ParentOf(t[Ancestor(t, from, n).value]) == Some(id)
  }

  /** The row after the update is in use, and its parent leads back to it: read off the table before it. */
  ghost predicate ClosesCycle(t: Table, id: Id, row: Menu) {
    row.active && !row.deleted && ParentOf(row).Some? && LeadsTo(t, ParentOf(row).value, id)
  }

  lemma EndsFromUp(t: Table, id: Id)
    requires Usable(t, id)
    ensures WalkEnds(t, id) <==> Up(t, id).None? || WalkEnds(t, Up(t, id).value)
  {
    assert Ancestor(t, id, 0) == Some(id);
    if Up(t, id).None? {
      assert Ancestor(t, id, 1).None?;
    } else {
      if n: nat :| Ancestor(t, id, n).None? { AncestorFromUp(t, id, n - 1); }
      if n: nat :| Ancestor(t, Up(t, id).value, n).None? {
        AncestorFromUp(t, id, n);
        assert Ancestor(t, id, n + 1).None?;
      }
    }
  }

  lemma UnusableEnds(t: Table, id: Id)
    requires !Usable(t, id)
    ensures WalkEnds(t, id)
  {
    assert Ancestor(t, id, 0).None?;
  }

  /** After one row is written every walk ends if the one from that row does. */
  lemma {:induction false} OthersEnd(t: Table, id: Id, row: Menu, from: Id, n: nat)
    requires Ancestor(t, from, n).None? && WalkEnds(t[id := row], id)
    ensures WalkEnds(t[id := row], from)
    decreases n
  {
    var u := t[id := row];
    if from != id {
      if !Usable(u, from) {
        UnusableEnds(u, from);
      } else {
        EndsFromUp(u, from);
        var up := Up(u, from);
        if up.Some? && up.value != id {
          assert Up(t, from) == up && Ancestor(t, from, 0) == Some(from);
          AncestorFromUp(t, from, n - 1);
          OthersEnd(t, id, row, up.value, n - 1);
        }
      }
    }
  }

  /** A walk that never comes near the written row is as it was. */
  lemma {:induction false} FarWalkIsSame(t: Table, id: Id, row: Menu, from: Id, n: nat)
    requires !LeadsTo(t, from, id)
    ensures Ancestor(t[id := row], from, n) == Ancestor(t, from, n)
    ensures Ancestor(t, from, n).Some? ==> Ancestor(t, from, n).value != id
  {
    if n > 0 { FarWalkIsSame(t, id, row, from, n - 1); }
  }

  lemma {:induction false} NearWalkArrives(t: Table, id: Id, row: Menu, from: Id, n: nat) returns (m: nat)
    requires row.active && !row.deleted && from != id
    requires Ancestor(t, from, n).Some? && ParentOf(t[Ancestor(t, from, n).value]) == Some(id)
    ensures Ancestor(t[id := row], from, m) == Some(id)
    decreases n
  {
    var u := t[id := row];
    if Ancestor(t, from, 0).None? { AncestorStays(t, from, 0, n); }
    assert Usable(u, from) && Ancestor(u, from, 0) == Some(from);
    if ParentOf(t[from]) == Some(id) {
      m := 1;
    } else {
      if Up(t, from).None? { AncestorStays(t, from, 1, n); }
      var up := Up(t, from).value;
      AncestorFromUp(t, from, n - 1);
      m := NearWalkArrives(t, id, row, up, n - 1);
      assert Up(u, from) == Some(up);
      AncestorFromUp(u, from, m);
      m := m + 1;
    }
  }

  lemma ClosingNeverEnds(t: Table, id: Id, row: Menu)
    requires ClosesCycle(t, id, row)
    ensures !WalkEnds(t[id := row], id)
  {
    var u, p := t[id := row], ParentOf(row).value;
    assert Usable(u, id) && Ancestor(u, id, 0) == Some(id);
    var m: nat := 0;
    if p != id {
      var n: nat :| Ancestor(t, p, n).Some? && ParentOf(t[Ancestor(t, p, n).value]) == Some(id);
      if Ancestor(t, p, 0).None? { AncestorStays(t, p, 0, n); }
      m := NearWalkArrives(t, id, row, p, n);
    }
    assert Up(u, id) == Some(p);
    AncestorFromUp(u, id, m);
    assert Ancestor(u, p, 0) == Some(p);
    assert Repeats(u, id, 0, m + 1);
    forall n: nat ensures Ancestor(u, id, n).Some? { RepetitionNeverEnds(u, id, 0, m + 1, n); }
  }

  lemma OpenEnds(t: Table, id: Id, row: Menu)
    requires AllWalksEnd(t) && !ClosesCycle(t, id, row)
    ensures WalkEnds(t[id := row], id)
  {
    var u := t[id := row];
    if !Usable(u, id) {
      UnusableEnds(u, id);
    } else {
      EndsFromUp(u, id);
      if Up(u, id).Some? {
        var p := Up(u, id).value;
        assert WalkEnds(t, p);
        var n: nat :| Ancestor(t, p, n).None?;
        FarWalkIsSame(t, id, row, p, n);
      }
    }
  }

  /**
   From tables in which every walk ends, writing a menu's row keeps that so exactly when the row
   is out of use or its new parent does not lead back to it.
   */
  lemma UpdateKeepsWalksIff(t: Table, id: Id, patch: Patch)
    requires AllWalksEnd(t) && MayUpdate(t, id, patch)
    ensures var u := Updated(t, id, patch);
            AllWalksEnd(u) <==> !ClosesCycle(t, id, u[id])
  {
    var u := Updated(t, id, patch);
    assert u == t[id := u[id]];
    if ClosesCycle(t, id, u[id]) {
      ClosingNeverEnds(t, id, u[id]);
    } else {
      OpenEnds(t, id, u[id]);
      forall from ensures WalkEnds(u, from) {
        assert WalkEnds(t, from);
        var n: nat :| Ancestor(t, from, n).None?;
        OthersEnd(t, id, u[id], from, n);
      }
    }
  }

  function NewParent(id: Id): Patch { Patch("", Some(id), None, None) }

  /** Once this menu is made its own parent, the call with its name among the resources never ends. */
  ghost predicate HangsOnceUpdated(t: Table, id: Id, active: seq<Id>) {
    && AllWalksEnd(t) && MayUpdate(t, id, NewParent(id))
    && var u := Updated(t, id, NewParent(id));
       && UniqueNames(u) && ActiveMenus(u, active)
       && forall fuel: nat :: Call(u, ByName(u, active), [t[id].name], fuel).None?
  }

  lemma OwnParentNeverEnds()
    ensures exists t, id, active :: HangsOnceUpdated(t, id, active)
  {
    var row := Menu("m", None, true, false, 0, "");
    var t: Table := map["m" := row];
    var u := Updated(t, "m", NewParent("m"));
    forall id ensures WalkEnds(t, id) {
      if id == "m" { EndsFromUp(t, id); } else { UnusableEnds(t, id); }
    }
    ClosingNeverEnds(t, "m", u["m"]);
    assert u == t["m" := u["m"]];
    CallEndsIff(u, ["m"], ["m"]);
    assert ["m"][0] == "m" && Permitted(u, Elements(["m"]), "m");
    assert HangsOnceUpdated(t, "m", ["m"]);
  }

  class MenuService {
    var table: Table
    var tables: Rbac.Tables

    constructor (table: Table, tables: Rbac.Tables)
      ensures this.table == table && this.tables == tables
    {
      this.table, this.tables := table, tables;
    }

    method GetActiveMenus() returns (ret: seq<Id>)
      ensures ActiveMenus(table, ret) && Distinct(ret)
      ensures ByOrder(table, ret)
    {
      var found := Query(table, table.Keys);
      ret := SortMenus(table, found);
      forall k | 0 <= k < |ret| ensures Usable(table, ret[k]) { assert ret[k] in Elements(ret); }
      forall id | Usable(table, id) ensures id in ret { assert id in Elements(ret); }
    }

    /**
     The repository's `GetUserMenus`: nothing for an unknown user, everything active for the
     superadmin, no menu without a role, and else the least covering set, in display order.
     */
    method GetUserMenus(user: Id) returns (ret: Option<seq<Id>>)
      ensures ret.None? <==> user !in tables.users
      ensures ret.Some? ==> Distinct(ret.value)
      ensures ret.Some? && tables.users[user].role == Authscope.SUPERADMIN ==>
                && ActiveMenus(table, ret.value)
                && ByOrder(table, ret.value)
      ensures ret.Some? && HasRole(tables.users[user]) ==>
                && IsLeast(table, RoleResources(tables, tables.users[user].roleId.value), Elements(ret.value))
                && Ranked(table, ret.value)
      ensures ret.Some? && tables.users[user].role != Authscope.SUPERADMIN && !HasRole(tables.users[user]) ==>
                ret.value == []
    {
      if user !in tables.users { return None; }
      var row := tables.users[user];
      if row.role == Authscope.SUPERADMIN {
        var all := GetActiveMenus();
        return Some(all);
      }
      if row.roleId.None? || row.roleId.value == "" { return Some([]); }
      var found := LoadWithParents(table, RoleResources(tables, row.roleId.value));
      found := SortMenus(table, found);
      return Some(found);
    }

    /** The service's `Update`; the table's foreign key refuses a parent that is no menu. */
    method Update(id: Id, patch: Patch) returns (ok: bool)
      modifies this`table
      ensures ok <==> MayUpdate(old(table), id, patch)
      ensures table == if ok then Updated(old(table), id, patch) else old(table)
    {
      if id !in table || table[id].deleted { return false; }
      var menu := table[id];
      if patch.display != "" { menu := menu.(display := patch.display); }
      if patch.parent.Some? { menu := menu.(parent := patch.parent); }
      if patch.order.Some? { menu := menu.(order := patch.order.value); }
      if patch.active.Some? { menu := menu.(active := patch.active.value); }
      if patch.parent.Some? && patch.parent.value !in table { return false; }
      table := table[id := menu];
      return true;
    }

    /** The service's `GetUserMenus`, which walks instead; the menus come once each, by their order number. */
    method WalkUserMenus(user: Id) returns (ret: Option<seq<Id>>)
      requires UniqueNames(table) && WalksEnd(table, UserResources(tables, user))
      ensures ret.None? <==> user !in tables.users
      ensures ret.Some? ==> IsLeast(table, UserResources(tables, user), Elements(ret.value)) && Distinct(ret.value)
      ensures ret.Some? ==> ByOrder(table, ret.value)
      ensures ret.Some? && HasRole(tables.users[user]) && NoBlankName(table) ==>
                IsLeast(table, RoleResources(tables, tables.users[user].roleId.value), Elements(ret.value))
    {
      var active := GetActiveMenus();
      if user !in tables.users { return None; }
      var resources := [];
      var permissions := Rbac.UserPermissions(tables, user).value;
      var todo := permissions;
      while todo != {}
        invariant todo <= permissions
        invariant Elements(resources) ==
                  set p | p in permissions - todo && p in tables.perms && tables.perms[p].resource != "" ::
                    tables.perms[p].resource
        decreases todo
      {
        var p :| p in todo;
        todo := todo - {p};
        if tables.perms[p].resource != "" {
          ElementsOfMore(resources, tables.perms[p].resource);
          resources := resources + [tables.perms[p].resource];
        }
      }
      assert Elements(resources) == UserResources(tables, user);
      var menus := ResolveAccessibleMenus(table, active, resources);
      FilterByOrder(table, active, Elements(menus));
      return Some(menus);
    }
  }
}
