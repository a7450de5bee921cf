/**
 Which menus a user may see: the active menus named by the role's permissions, and every
 active ancestor of one of them. The source computes this twice, by walking each parent
 chain and by a breadth-first loop with a visited map.
 */
module Menus {
  import opened Wrappers

  type Id = string

  datatype Menu = Menu(
    name: string, parent: Option<Id>, active: bool, deleted: bool, order: int, display: string)

  type Table = map<Id, Menu>

  predicate Usable(t: Table, id: Id) { id in t && t[id].active && !t[id].deleted }

  /** A missing parent and an empty one are the same. */
  function ParentOf(m: Menu): Option<Id> { if m.parent == Some("") then None else m.parent }

  predicate Permitted(t: Table, resources: set<string>, id: Id) { Usable(t, id) && t[id].name in resources }

  // ---------- Ancestors ----------

  function Up(t: Table, id: Id): Option<Id> {
    if id !in t then None
    else
      var p := ParentOf(t[id]);
      if p.Some? && Usable(t, p.value) then p else None
  }

  /** The n-th usable ancestor, reached through usable ones only; the menu itself is its 0-th. */
  function Ancestor(t: Table, id: Id, n: nat): Option<Id> {
    if n == 0 then (if Usable(t, id) then Some(id) else None)
    else
      var a := Ancestor(t, id, n - 1);
      if a.None? then None else Up(t, a.value)
  }

  ghost predicate Accessible(t: Table, resources: set<string>, a: Id) {
    exists id, n: nat :: Permitted(t, resources, id) && Ancestor(t, id, n) == Some(a)
  }

  ghost predicate ClosedUp(t: Table, s: set<Id>) {
    forall id {:trigger Up(t, id)} :: id in s && Up(t, id).Some? ==> Up(t, id).value in s
  }

  /** Holds the permitted menus and, with each menu, its usable parent. */
  ghost predicate Covers(t: Table, resources: set<string>, s: set<Id>) {
    ClosedUp(t, s) && forall id :: Permitted(t, resources, id) ==> id in s
  }

  ghost predicate WithinAll(t: Table, resources: set<string>, s: set<Id>) {
    forall bigger :: Covers(t, resources, bigger) ==> s <= bigger
  }

  /** The menus to show: the least set that covers. */
  ghost predicate IsLeast(t: Table, resources: set<string>, s: set<Id>) {
    Covers(t, resources, s) && WithinAll(t, resources, s)
  }

  lemma {:induction false} AncestorStays(t: Table, id: Id, m: nat, n: nat)
    requires m <= n && Ancestor(t, id, m).None?
    ensures Ancestor(t, id, n).None?
  {
    if m < n { AncestorStays(t, id, m, n - 1); }
  }

  lemma {:induction false} AncestorsIn(t: Table, s: set<Id>, id: Id, n: nat)
    requires ClosedUp(t, s) && id in s && Ancestor(t, id, n).Some?
    ensures Ancestor(t, id, n).value in s
  {
    if n > 0 { AncestorsIn(t, s, id, n - 1); }
  }

  lemma UpIsAccessible(t: Table, resources: set<string>, a: Id)
    requires Accessible(t, resources, a) && Up(t, a).Some?
    ensures Accessible(t, resources, Up(t, a).value)
  {
    var id, n: nat :| Permitted(t, resources, id) && Ancestor(t, id, n) == Some(a);
    assert Ancestor(t, id, n + 1) == Up(t, a);
  }

  lemma {:induction false} AncestorUsable(t: Table, id: Id, n: nat)
    requires Ancestor(t, id, n).Some?
    ensures Usable(t, Ancestor(t, id, n).value)
  {
  }

  /** The least covering set is the permitted menus and their usable ancestors, no more and no less. */
  lemma LeastIsAccessible(t: Table, resources: set<string>, s: set<Id>)
    requires IsLeast(t, resources, s)
    ensures forall a :: a in s <==> Accessible(t, resources, a)
    ensures forall a :: a in s ==> Usable(t, a)
  {
    var accessible := set a | a in t && Accessible(t, resources, a);
    forall id | Permitted(t, resources, id) ensures id in accessible { assert Ancestor(t, id, 0) == Some(id); }
    forall id | id in accessible && Up(t, id).Some? ensures Up(t, id).value in accessible {
      UpIsAccessible(t, resources, id);
    }
    assert Covers(t, resources, accessible);
    forall a | Accessible(t, resources, a) ensures a in s && Usable(t, a) {
      var id, n: nat :| Permitted(t, resources, id) && Ancestor(t, id, n) == Some(a);
      AncestorsIn(t, s, id, n);
      AncestorUsable(t, id, n);
    }
  }

  /** Whatever computes it, computes the same. */
  lemma LeastIsUnique(t: Table, resources: set<string>, a: set<Id>, b: set<Id>)
    requires IsLeast(t, resources, a) && IsLeast(t, resources, b)
    ensures a == b
  {
  }

  // ---------- The breadth-first loop ----------

  /** Every visited menu's usable parent is visited or waiting. */
  ghost predicate ClosedBut(t: Table, visited: set<Id>, waiting: set<Id>) {
    forall id {:trigger Up(t, id)} ::
      id in visited && Up(t, id).Some? ==> Up(t, id).value in visited || Up(t, id).value in waiting
  }

  predicate Distinct(s: seq<Id>) { forall j, k :: 0 <= j < k < |s| ==> s[j] != s[k] }

  function Elements(s: seq<Id>): set<Id> { set id | id in s }

  lemma ElementsOfMore(s: seq<Id>, id: Id)
    ensures Elements(s + [id]) == Elements(s) + {id}
  {
  }

  /** The rows a query for these ids returns: usable ones, each once. */
  method Query(t: Table, wanted: set<Id>) returns (rows: seq<Id>)
    ensures Elements(rows) == set id | id in wanted && Usable(t, id)
    ensures Distinct(rows)
  {
    rows := [];
    var todo := wanted;
    while todo != {}
      invariant todo <= wanted
      invariant Elements(rows) == set id | id in wanted - todo && Usable(t, id)
      invariant forall j, k :: 0 <= j < k < |rows| ==> rows[j] != rows[k]
      decreases todo
    {
      var id :| id in todo;
      todo := todo - {id};
      if Usable(t, id) {
        assert id !in Elements(rows);
        ElementsOfMore(rows, id);
        rows := rows + [id];
      }
    }
  }

  /** What a round still has to look up: parents of visited menus. */
  predicate Waits(t: Table, visited: set<Id>, pending: seq<Id>) {
    forall p :: p in pending ==> exists id :: id in visited && id in t && ParentOf(t[id]) == Some(p)
  }

  lemma WaitingWithinAll(t: Table, resources: set<string>, visited: set<Id>, pending: seq<Id>, found: set<Id>)
    requires Waits(t, visited, pending) && WithinAll(t, resources, visited)
    requires forall p :: p in found ==> p in pending && Usable(t, p)
    ensures WithinAll(t, resources, visited + found)
  {
    forall bigger | Covers(t, resources, bigger) ensures visited + found <= bigger {
      forall p | p in found ensures p in bigger {
        var id :| id in visited && id in t && ParentOf(t[id]) == Some(p);
        assert Up(t, id) == Some(p);
      }
    }
  }

  /** The permitted menus, and which parents they have that were not among those before them. */
  method Visit(t: Table, ret: seq<Id>) returns (menuByID: map<Id, Menu>, pending: seq<Id>)
    requires Elements(ret) <= t.Keys
    ensures menuByID.Keys == Elements(ret)
    ensures ClosedBut(t, menuByID.Keys, Elements(pending)) && Waits(t, menuByID.Keys, pending)
  {
    menuByID, pending := map[], [];
    for n := 0 to |ret|
      invariant menuByID.Keys == Elements(ret[..n])
      invariant ClosedBut(t, menuByID.Keys, Elements(pending)) && Waits(t, menuByID.Keys, pending)
    {
      assert ret[n] in Elements(ret);
      var menu := t[ret[n]];
      menuByID := menuByID[ret[n] := menu];
      var parent := ParentOf(menu);
      if parent.Some? && parent.value !in menuByID { pending := pending + [parent.value]; }
    }
    assert ret[..|ret|] == ret;
  }

  /** What a round keeps as it takes parents in: the new menus' parents are known or noted for the next. */
  ghost predicate Taking(t: Table, before: set<Id>, menuByID: map<Id, Menu>, ret: seq<Id>, next: seq<Id>) {
    && menuByID.Keys == Elements(ret) && Distinct(ret) && before <= menuByID.Keys
    && ClosedBut(t, menuByID.Keys - before, menuByID.Keys + Elements(next))
    && Waits(t, menuByID.Keys, next)
    && (next != [] ==> before < menuByID.Keys)
  }

  /** One parent: taken in unless seen before. */
  method AddParent(t: Table, ghost before: set<Id>, menuByID: map<Id, Menu>, ret: seq<Id>, next: seq<Id>, id: Id)
    returns (menuByID': map<Id, Menu>, ret': seq<Id>, next': seq<Id>)
    requires Taking(t, before, menuByID, ret, next) && id in t
    ensures Taking(t, before, menuByID', ret', next') && menuByID'.Keys == menuByID.Keys + {id}
  {
    menuByID', ret', next' := menuByID, ret, next;
    if id in menuByID { return; }
    ElementsOfMore(ret, id);
    assert id !in ret by { assert id !in Elements(ret); }
    menuByID' := menuByID[id := t[id]];
    ret' := ret + [id];
    var parent := ParentOf(t[id]);
    if parent.Some? && parent.value !in menuByID' {
      ElementsOfMore(next, parent.value);
      next' := next + [parent.value];
    }
  }

  /** One round: take in the parents not seen before and note which parents they have. */
  method AddParents(t: Table, menuByID: map<Id, Menu>, ret: seq<Id>, parents: seq<Id>)
    returns (menuByID': map<Id, Menu>, ret': seq<Id>, next: seq<Id>)
    requires menuByID.Keys == Elements(ret) && Distinct(ret) && Elements(parents) <= t.Keys
    ensures Taking(t, menuByID.Keys, menuByID', ret', next) && menuByID'.Keys == menuByID.Keys + Elements(parents)
  {
    menuByID', ret', next := menuByID, ret, [];
    for n := 0 to |parents|
      invariant Taking(t, menuByID.Keys, menuByID', ret', next)
      invariant menuByID'.Keys == menuByID.Keys + Elements(parents[..n])
    {
      assert parents[n] in Elements(parents);
      assert parents[..n + 1] == parents[..n] + [parents[n]];
      ElementsOfMore(parents[..n], parents[n]);
      menuByID', ret', next := AddParent(t, menuByID.Keys, menuByID', ret', next, parents[n]);
    }
    assert parents[..|parents|] == parents;
  }

  /** What the rounds keep. */
  ghost predicate Searching(t: Table, resources: set<string>, menuByID: map<Id, Menu>, ret: seq<Id>, pending: seq<Id>) {
    && menuByID.Keys == Elements(ret) <= t.Keys && Distinct(ret)
    && (forall id :: Permitted(t, resources, id) ==> id in menuByID)
    && WithinAll(t, resources, menuByID.Keys)
    && ClosedBut(t, menuByID.Keys, Elements(pending)) && Waits(t, menuByID.Keys, pending)
  }

  lemma RoundSearches(t: Table, resources: set<string>, menuByID: map<Id, Menu>, ret: seq<Id>, pending: seq<Id>,
                      parents: seq<Id>, menuByID': map<Id, Menu>, ret': seq<Id>, next: seq<Id>)
    requires Searching(t, resources, menuByID, ret, pending)
    requires Elements(parents) == set id | id in Elements(pending) && Usable(t, id)
    requires Taking(t, menuByID.Keys, menuByID', ret', next) && menuByID'.Keys == menuByID.Keys + Elements(parents)
    ensures Searching(t, resources, menuByID', ret', next)
  {
    WaitingWithinAll(t, resources, menuByID.Keys, pending, Elements(parents));
  }

  /** It ends on every table, parent cycles included, with exactly the least covering set, each menu once. */
  method LoadWithParents(t: Table, resources: set<string>) returns (ret: seq<Id>)
    ensures IsLeast(t, resources, Elements(ret)) && Distinct(ret)
  {
    ret := Query(t, set id | id in t && t[id].name in resources);
    var menuByID, pending := Visit(t, ret);
    while |pending| > 0
      invariant Searching(t, resources, menuByID, ret, pending)
      decreases t.Keys - menuByID.Keys, |pending|
    {
      var parents := Query(t, Elements(pending));
      var menuByID', ret', next := AddParents(t, menuByID, ret, parents);
      RoundSearches(t, resources, menuByID, ret, pending, parents, menuByID', ret', next);
      menuByID, ret, pending := menuByID', ret', next;
    }
  }

  // ---------- The parent-chain walk ----------

  predicate UniqueNames(t: Table) {
    forall i, j {:trigger t[i].name, t[j].name} :: i in t && j in t && t[i].name == t[j].name ==> i == j
  }

  ghost predicate WalkEnds(t: Table, id: Id) { exists n: nat :: Ancestor(t, id, n).None? }

  /** The walk from each permitted menu ends. */
  ghost predicate WalksEnd(t: Table, resources: set<string>) {
    forall id :: Permitted(t, resources, id) ==> WalkEnds(t, id)
  }

  /** The inner loop cut off after so many tests of its condition; `None` while it is still running. */
  function Walk(t: Table, current: Id, allowed: set<Id>, fuel: nat): Option<set<Id>>
    decreases fuel
  {
    if fuel == 0 then None
    else if Up(t, current).None? then Some(allowed)
    else Walk(t, Up(t, current).value, allowed + {Up(t, current).value}, fuel - 1)
  }

  /** The loop over resources around it. */
  function Call(t: Table, menuByName: map<string, Id>, resources: seq<string>, fuel: nat): Option<set<Id>> {
    if resources == [] then Some({})
    else
      var before, name := Call(t, menuByName, resources[..|resources| - 1], fuel), resources[|resources| - 1];
      if before.None? || name !in menuByName then before
      else Walk(t, menuByName[name], before.value + {menuByName[name]}, fuel)
  }

  /** What `GetActiveMenus` returns. */
  ghost predicate ActiveMenus(t: Table, active: seq<Id>) {
    && (forall k :: 0 <= k < |active| ==> Usable(t, active[k]))
    && (forall id :: Usable(t, id) ==> id in active)
  }

  /** The map by name; of two menus with one name the later stays. */
  function ByName(t: Table, active: seq<Id>): map<string, Id>
    requires forall k :: 0 <= k < |active| ==> active[k] in t
  {
    if active == [] then map[]
    else
      var last := active[|active| - 1];
      ByName(t, active[..|active| - 1])[t[last].name := last]
  }

  lemma {:induction false} ByNameFinds(t: Table, active: seq<Id>)
    requires UniqueNames(t) && forall k :: 0 <= k < |active| ==> active[k] in t
    ensures forall name :: name in ByName(t, active) ==>
              ByName(t, active)[name] in active && t[ByName(t, active)[name]].name == name
    ensures forall id :: id in active ==> t[id].name in ByName(t, active) && ByName(t, active)[t[id].name] == id
  {
    if active != [] {
      var n := |active| - 1;
      ByNameFinds(t, active[..n]);
      assert active == active[..n] + [active[n]];
    }
  }

  lemma {:induction false} WalkMore(t: Table, current: Id, allowed: set<Id>, fuel: nat, more: nat)
    requires fuel <= more && Walk(t, current, allowed, fuel).Some?
    ensures Walk(t, current, allowed, more) == Walk(t, current, allowed, fuel)
    decreases fuel
  {
    if Up(t, current).Some? {
      WalkMore(t, Up(t, current).value, allowed + {Up(t, current).value}, fuel - 1, more - 1);
    }
  }

  lemma {:induction false} CallMore(t: Table, menuByName: map<string, Id>, resources: seq<string>, fuel: nat, more: nat)
    requires fuel <= more && Call(t, menuByName, resources, fuel).Some?
    ensures Call(t, menuByName, resources, more) == Call(t, menuByName, resources, fuel)
  {
    if resources != [] {
      var before, name := resources[..|resources| - 1], resources[|resources| - 1];
      CallMore(t, menuByName, before, fuel, more);
      if name in menuByName {
        WalkMore(t, menuByName[name], Call(t, menuByName, before, fuel).value + {menuByName[name]}, fuel, more);
      }
    }
  }

  lemma {:induction false} AncestorFromUp(t: Table, id: Id, n: nat)
    requires Usable(t, id) && Up(t, id).Some?
    ensures Ancestor(t, id, n + 1) == Ancestor(t, Up(t, id).value, n)
  {
    if n > 0 { AncestorFromUp(t, id, n - 1); } else { assert Ancestor(t, id, 0) == Some(id); }
  }

  lemma {:induction false} WalkStopsIff(t: Table, id: Id, allowed: set<Id>, fuel: nat)
    requires Usable(t, id)
    ensures Walk(t, id, allowed, fuel).Some? <==> Ancestor(t, id, fuel).None?
    decreases fuel
  {
    if fuel > 0 {
      assert Ancestor(t, id, 0) == Some(id);
      if Up(t, id).Some? {
        WalkStopsIff(t, Up(t, id).value, allowed + {Up(t, id).value}, fuel - 1);
        AncestorFromUp(t, id, fuel - 1);
      } else {
        AncestorStays(t, id, 1, fuel);
      }
    }
  }

  ghost predicate NamedWalksEnd(t: Table, menuByName: map<string, Id>, resources: seq<string>) {
    forall k :: 0 <= k < |resources| && resources[k] in menuByName ==> WalkEnds(t, menuByName[resources[k]])
  }

  lemma {:induction false} CallStops(t: Table, menuByName: map<string, Id>, resources: seq<string>) returns (fuel: nat)
    requires forall name :: name in menuByName ==> Usable(t, menuByName[name])
    requires NamedWalksEnd(t, menuByName, resources)
    ensures Call(t, menuByName, resources, fuel).Some?
  {
    fuel := 0;
    if resources != [] {
      var before, name := resources[..|resources| - 1], resources[|resources| - 1];
      fuel := CallStops(t, menuByName, before);
      if name in menuByName {
        var n: nat :| Ancestor(t, menuByName[name], n).None?;
        var most := if fuel <= n then n else fuel;
        CallMore(t, menuByName, before, fuel, most);
        AncestorStays(t, menuByName[name], n, most);
        WalkStopsIff(t, menuByName[name], Call(t, menuByName, before, most).value + {menuByName[name]}, most);
        fuel := most;
      }
    }
  }

  lemma {:induction false} StoppedCallsWalks(t: Table, menuByName: map<string, Id>, resources: seq<string>, fuel: nat)
    requires forall name :: name in menuByName ==> Usable(t, menuByName[name])
    requires Call(t, menuByName, resources, fuel).Some?
    ensures NamedWalksEnd(t, menuByName, resources)
  {
    if resources != [] {
      var n := |resources| - 1;
      var before, name := resources[..n], resources[n];
      StoppedCallsWalks(t, menuByName, before, fuel);
      if name in menuByName {
        WalkStopsIff(t, menuByName[name], Call(t, menuByName, before, fuel).value + {menuByName[name]}, fuel);
      }
      forall k | 0 <= k < |resources| && resources[k] in menuByName ensures WalkEnds(t, menuByName[resources[k]]) {
        if k < n { assert before[k] == resources[k]; }
      }
    }
  }

  /** The whole call ends exactly when the walk from every permitted menu does. */
  lemma CallEndsIff(t: Table, active: seq<Id>, resources: seq<string>)
    requires UniqueNames(t) && ActiveMenus(t, active)
    ensures (exists fuel: nat :: Call(t, ByName(t, active), resources, fuel).Some?)
            <==> WalksEnd(t, Elements(resources))
  {
    var byName := ByName(t, active);
    ByNameFinds(t, active);
    if fuel: nat :| Call(t, byName, resources, fuel).Some? {
      StoppedCallsWalks(t, byName, resources, fuel);
      forall id | Permitted(t, Elements(resources), id) ensures WalkEnds(t, id) {
        var k :| 0 <= k < |resources| && resources[k] == t[id].name;
        assert byName[resources[k]] == id;
      }
      assert WalksEnd(t, Elements(resources));
    }
    if WalksEnd(t, Elements(resources)) {
      forall k | 0 <= k < |resources| && resources[k] in byName ensures WalkEnds(t, byName[resources[k]]) {
        assert resources[k] in Elements(resources);
        assert Permitted(t, Elements(resources), byName[resources[k]]);
      }
      var fuel := CallStops(t, byName, resources);
      assert Call(t, ByName(t, active), resources, fuel).Some?;
    }
  }

  ghost predicate AllUsable(t: Table, s: set<Id>) { forall id :: id in s ==> Usable(t, id) }

  /** Where the walk stands: what is left of it, and what it has allowed so far. */
  ghost predicate Walking(t: Table, resources: set<string>, allowed: set<Id>, current: Id) {
    && Usable(t, current) && current in allowed
    && WithinAll(t, resources, allowed) && AllUsable(t, allowed) && ClosedBut(t, allowed - {current}, allowed)
  }

  lemma WalkOneUp(t: Table, resources: set<string>, allowed: set<Id>, current: Id)
    requires Walking(t, resources, allowed, current) && Up(t, current).Some?
    ensures Walking(t, resources, allowed + {Up(t, current).value}, Up(t, current).value)
  {
    var parent := Up(t, current).value;
    forall bigger | Covers(t, resources, bigger) ensures allowed + {parent} <= bigger { assert current in bigger; }
  }

  lemma WalkDone(t: Table, resources: set<string>, allowed: set<Id>, current: Id)
    requires Walking(t, resources, allowed, current) && Up(t, current).None?
    ensures ClosedUp(t, allowed)
  {
  }

  /** One resource's menu and the walk up its parents. */
  method AllowWithParents(t: Table, ghost resources: set<string>, allowed: set<Id>, id: Id)
    returns (allowed': set<Id>, ghost fuel: nat)
    requires Permitted(t, resources, id) && WalkEnds(t, id)
    requires WithinAll(t, resources, allowed) && ClosedUp(t, allowed) && AllUsable(t, allowed)
    ensures WithinAll(t, resources, allowed') && ClosedUp(t, allowed') && AllUsable(t, allowed')
    ensures allowed + {id} <= allowed' && Walk(t, id, allowed + {id}, fuel) == Some(allowed')
  {
    ghost var height: nat :| Ancestor(t, id, height).None?;
    ghost var whole := CutWalk(t, id, allowed + {id}, height);
    ghost var left := height;
    var current := id;
    allowed' := allowed + {id};
    while ParentOf(t[current]).Some?
      invariant Walking(t, resources, allowed', current) && allowed + {id} <= allowed'
      invariant Walk(t, current, allowed', left) == Some(whole)
      decreases left
    {
      var parent := ParentOf(t[current]).value;
      if parent !in t || !t[parent].active || t[parent].deleted { break; }
      assert Up(t, current) == Some(parent);
      WalkOneUp(t, resources, allowed', current);
      left := left - 1;
      allowed' := allowed' + {parent};
      current := parent;
    }
    WalkDone(t, resources, allowed', current);
    fuel := height;
  }

  /** What the cut-off loop has found once it has ended. */
  ghost function CutWalk(t: Table, id: Id, allowed: set<Id>, fuel: nat): (found: set<Id>)
    requires Usable(t, id) && Ancestor(t, id, fuel).None?
    ensures Walk(t, id, allowed, fuel) == Some(found)
  {
    WalkStopsIff(t, id, allowed, fuel);
    Walk(t, id, allowed, fuel).value
  }

  /**
   `ResolveAccessibleMenus` on the active menus. It asks for what it does not check: that the walk
   from each permitted menu ends, without which the call does not (CallEndsIff).
   */
  method ResolveAccessibleMenus(t: Table, active: seq<Id>, resources: seq<string>) returns (ret: seq<Id>)
    requires UniqueNames(t) && WalksEnd(t, Elements(resources))
    requires ActiveMenus(t, active)
    ensures IsLeast(t, Elements(resources), Elements(ret))
    ensures ret == Filter(active, Elements(ret)) && (Distinct(active) ==> Distinct(ret))
    ensures exists fuel: nat :: Call(t, ByName(t, active), resources, fuel) == Some(Elements(ret))
  {
    if |active| == 0 || |resources| == 0 {
      NothingToCall(t, active, resources);
      ret := [];
      assert Elements(ret) == {};
      FilterNothing(active);
      return;
    }
    var menuByName: map<string, Id> := map[];
    for n := 0 to |active|
      invariant forall k :: 0 <= k < |active| ==> active[k] in t
      invariant menuByName == ByName(t, active[..n])
    {
      assert active[..n + 1][..n] == active[..n];
      menuByName := menuByName[t[active[n]].name := active[n]];
    }
    assert active[..|active|] == active;
    ByNameFinds(t, active);
    var allowed := AllowAll(t, active, menuByName, resources);
    ret := Keep(active, allowed);
    FilterElements(active, allowed);
    assert Elements(ret) == allowed;
  }

  lemma NothingToCall(t: Table, active: seq<Id>, resources: seq<string>)
    requires (active == [] || resources == []) && ActiveMenus(t, active)
    ensures exists fuel: nat :: Call(t, ByName(t, active), resources, fuel) == Some({})
    ensures IsLeast(t, Elements(resources), {})
  {
    NoNamesNoCall(t, ByName(t, active), resources);
    assert Call(t, ByName(t, active), resources, 0) == Some({});
  }

  lemma {:induction false} NoNamesNoCall(t: Table, menuByName: map<string, Id>, resources: seq<string>)
    requires resources == [] || menuByName == map[]
    ensures Call(t, menuByName, resources, 0) == Some({})
  {
    if resources != [] { NoNamesNoCall(t, menuByName, resources[..|resources| - 1]); }
  }

  /** What the loop over the resources keeps. */
  ghost predicate Allowing(t: Table, all: set<string>, menuByName: map<string, Id>, resources: seq<string>,
                           allowed: set<Id>, fuel: nat)
  {
    && WithinAll(t, all, allowed) && ClosedUp(t, allowed) && AllUsable(t, allowed)
    && (forall k :: 0 <= k < |resources| && resources[k] in menuByName ==> menuByName[resources[k]] in allowed)
    && Call(t, menuByName, resources, fuel) == Some(allowed)
  }

  /** One turn of it. */
  method AllowOne(t: Table, ghost all: set<string>, menuByName: map<string, Id>, ghost resources: seq<string>,
                  before: set<Id>, name: string, ghost fuel: nat) returns (allowed: set<Id>, ghost most: nat)
    requires Allowing(t, all, menuByName, resources, before, fuel)
    requires name in menuByName ==> Permitted(t, all, menuByName[name]) && WalkEnds(t, menuByName[name])
    ensures Allowing(t, all, menuByName, resources + [name], allowed, most)
  {
    assert (resources + [name])[..|resources|] == resources;
    allowed, most := before, fuel;
    if name in menuByName {
      ghost var more: nat;
      allowed, more := AllowWithParents(t, all, before, menuByName[name]);
      most := CallOneMore(t, menuByName, resources + [name], before, allowed, fuel, more);
    }
  }

  /** The loop over the resources. */
  method AllowAll(t: Table, ghost active: seq<Id>, menuByName: map<string, Id>, resources: seq<string>)
    returns (allowed: set<Id>)
    requires UniqueNames(t) && WalksEnd(t, Elements(resources))
    requires ActiveMenus(t, active)
    requires menuByName == ByName(t, active)
    ensures IsLeast(t, Elements(resources), allowed) && AllUsable(t, allowed)
    ensures exists fuel: nat :: Call(t, menuByName, resources, fuel) == Some(allowed)
  {
    ByNameFinds(t, active);
    ghost var all, fuel: nat := Elements(resources), 0;
    allowed := {};
    for n := 0 to |resources|
      invariant Allowing(t, all, menuByName, resources[..n], allowed, fuel)
    {
      NamedIsPermitted(t, active, resources, n);
      assert resources[..n + 1] == resources[..n] + [resources[n]];
      allowed, fuel := AllowOne(t, all, menuByName, resources[..n], allowed, resources[n], fuel);
    }
    assert resources[..|resources|] == resources;
    AllNamedAreAllowed(t, active, resources, allowed);
  }

  lemma NamedIsPermitted(t: Table, active: seq<Id>, resources: seq<string>, n: nat)
    requires UniqueNames(t) && WalksEnd(t, Elements(resources)) && ActiveMenus(t, active) && n < |resources|
    ensures var byName, name := ByName(t, active), resources[n];
            name in byName ==> Permitted(t, Elements(resources), byName[name]) && WalkEnds(t, byName[name])
  {
    ByNameFinds(t, active);
    assert resources[n] in Elements(resources);
  }

  /** One more resource walked: with enough tests for both, the calls go on from one another. */
  lemma CallOneMore(
    t: Table, menuByName: map<string, Id>, resources: seq<string>, before: set<Id>, allowed: set<Id>,
    fuel: nat, more: nat) returns (most: nat)
    requires resources != [] && resources[|resources| - 1] in menuByName
    requires Call(t, menuByName, resources[..|resources| - 1], fuel) == Some(before)
    requires var id := menuByName[resources[|resources| - 1]];
             Walk(t, id, before + {id}, more) == Some(allowed)
    ensures Call(t, menuByName, resources, most) == Some(allowed)
  {
    var id := menuByName[resources[|resources| - 1]];
    most := if fuel <= more then more else fuel;
    CallMore(t, menuByName, resources[..|resources| - 1], fuel, most);
    WalkMore(t, id, before + {id}, more, most);
  }

  lemma AllNamedAreAllowed(t: Table, active: seq<Id>, resources: seq<string>, allowed: set<Id>)
    requires UniqueNames(t) && ActiveMenus(t, active)
    requires forall k :: 0 <= k < |resources| && resources[k] in ByName(t, active) ==>
               ByName(t, active)[resources[k]] in allowed
    ensures forall i :: Permitted(t, Elements(resources), i) ==> i in allowed
  {
    ByNameFinds(t, active);
    forall i | Permitted(t, Elements(resources), i) ensures i in allowed {
      var r :| 0 <= r < |resources| && resources[r] == t[i].name;
      assert ByName(t, active)[t[i].name] == i;
    }
  }

  lemma {:induction false} FilterNothing(ids: seq<Id>)
    ensures Filter(ids, {}) == []
  {
    if ids != [] { FilterNothing(ids[..|ids| - 1]); }
  }

  /** The ids in the set, in their order. */
  function Filter(ids: seq<Id>, allowed: set<Id>): seq<Id> {
    if ids == [] then []
    else Filter(ids[..|ids| - 1], allowed) + if ids[|ids| - 1] in allowed then [ids[|ids| - 1]] else []
  }

  lemma {:induction false} FilterElements(ids: seq<Id>, allowed: set<Id>)
    ensures Elements(Filter(ids, allowed)) == Elements(ids) * allowed
    ensures Distinct(ids) ==> Distinct(Filter(ids, allowed))
  {
    if ids != [] {
      var n := |ids| - 1;
      assert ids == ids[..n] + [ids[n]];
      FilterElements(ids[..n], allowed);
      ElementsOfMore(ids[..n], ids[n]);
      assert Elements(ids) == Elements(ids[..n]) + {ids[n]};
      var front := Filter(ids[..n], allowed);
      ElementsOfMore(front, ids[n]);
      assert Filter(ids, allowed) == if ids[n] in allowed then front + [ids[n]] else front;
      if Distinct(ids) { FilterNew(ids, allowed); }
    }
  }

  lemma FilterNew(ids: seq<Id>, allowed: set<Id>)
    requires ids != [] && Distinct(ids)
    requires Elements(Filter(ids[..|ids| - 1], allowed)) == Elements(ids[..|ids| - 1]) * allowed
    ensures ids[|ids| - 1] !in Filter(ids[..|ids| - 1], allowed)
  {
    var n := |ids| - 1;
    assert ids[n] !in Elements(ids[..n]);
    assert ids[n] !in Elements(Filter(ids[..n], allowed));
  }

  method Keep(ids: seq<Id>, allowed: set<Id>) returns (ret: seq<Id>)
    ensures ret == Filter(ids, allowed)
  {
    ret := [];
    for n := 0 to |ids|
      invariant ret == Filter(ids[..n], allowed)
    {
      assert ids[..n + 1][..n] == ids[..n];
      if ids[n] in allowed { ret := ret + [ids[n]]; }
    }
    assert ids[..|ids|] == ids;
  }

  // ---------- When the walk ends ----------

  predicate Repeats(t: Table, id: Id, i: nat, j: nat) {
    i < j && Ancestor(t, id, i).Some? && Ancestor(t, id, i) == Ancestor(t, id, j)
  }

  lemma {:induction false} RepetitionShifts(t: Table, id: Id, i: nat, j: nat, k: nat)
    requires Repeats(t, id, i, j)
    ensures Ancestor(t, id, i + k) == Ancestor(t, id, j + k)
  {
    if k > 0 { RepetitionShifts(t, id, i, j, k - 1); }
  }

  lemma {:induction false} RepetitionNeverEnds(t: Table, id: Id, i: nat, j: nat, n: nat)
    requires Repeats(t, id, i, j)
    ensures Ancestor(t, id, n).Some?
  {
    if Ancestor(t, id, n).None? {
      if n <= j {
        AncestorStays(t, id, n, j);
      } else {
        RepetitionShifts(t, id, i, j, n - j);
        RepetitionNeverEnds(t, id, i, j, i + n - j);
      }
    }
  }

  function FirstAncestors(t: Table, id: Id, n: nat): set<Id>
  {
    if n == 0 then {}
    else FirstAncestors(t, id, n - 1) + if Ancestor(t, id, n - 1).Some? then {Ancestor(t, id, n - 1).value} else {}
  }

  lemma {:induction false} AmongFirst(t: Table, id: Id, n: nat, a: Id) returns (k: nat)
    requires a in FirstAncestors(t, id, n)
    ensures k < n && Ancestor(t, id, k) == Some(a)
  {
    if a in FirstAncestors(t, id, n - 1) { k := AmongFirst(t, id, n - 1, a); } else { k := n - 1; }
  }

  lemma {:induction false} DistinctAncestorsFit(t: Table, id: Id, n: nat)
    requires forall k :: 0 <= k < n ==> Ancestor(t, id, k).Some?
    requires forall i, j :: 0 <= i < j < n ==> !Repeats(t, id, i, j)
    ensures |FirstAncestors(t, id, n)| == n && FirstAncestors(t, id, n) <= t.Keys
  {
    if n > 0 {
      DistinctAncestorsFit(t, id, n - 1);
      AncestorUsable(t, id, n - 1);
      var a := Ancestor(t, id, n - 1).value;
      forall k | 0 <= k < n - 1 ensures Ancestor(t, id, k) != Some(a) { assert !Repeats(t, id, k, n - 1); }
      if a in FirstAncestors(t, id, n - 1) {
        var k := AmongFirst(t, id, n - 1, a);
        assert false;
      }
    }
  }

  lemma SubsetSize(a: set<Id>, b: set<Id>)
    requires a <= b
    ensures |a| <= |b|
  {
    assert b == a + (b - a);
  }

  lemma EndsWithinTable(t: Table, id: Id)
    requires forall i: nat, j: nat :: !Repeats(t, id, i, j)
    ensures Ancestor(t, id, |t| + 1).None?
  {
    var n := |t| + 1;
    if Ancestor(t, id, n).Some? {
      forall k | 0 <= k < n ensures Ancestor(t, id, k).Some? {
        if Ancestor(t, id, k).None? { AncestorStays(t, id, k, n); }
      }
      DistinctAncestorsFit(t, id, n);
      SubsetSize(FirstAncestors(t, id, n), t.Keys);
      assert false;
    }
  }

  /**
   The walk from a menu ends exactly when no usable ancestor comes round again, and then within the
   size of the table.
   */
  lemma WalkEndsIffNoRepetition(t: Table, id: Id)
    ensures (exists n: nat :: Ancestor(t, id, n).None?) <==> !exists i: nat, j: nat :: Repeats(t, id, i, j)
    ensures (exists n: nat :: Ancestor(t, id, n).None?) ==> Ancestor(t, id, |t| + 1).None?
  {
    if i: nat, j: nat :| Repeats(t, id, i, j) {
      forall n: nat ensures Ancestor(t, id, n).Some? { RepetitionNeverEnds(t, id, i, j, n); }
    } else {
      EndsWithinTable(t, id);
    }
  }

  // ---------- Agreement ----------

  /** Where both are defined the two algorithms agree. */
  method BothAgree(t: Table, active: seq<Id>, resources: seq<string>) returns (walked: seq<Id>, searched: seq<Id>)
    requires UniqueNames(t) && WalksEnd(t, Elements(resources))
    requires ActiveMenus(t, active)
    ensures Elements(walked) == Elements(searched)
    ensures forall a :: a in Elements(searched) <==> Accessible(t, Elements(resources), a)
  {
    walked := ResolveAccessibleMenus(t, active, resources);
    searched := LoadWithParents(t, Elements(resources));
    LeastIsUnique(t, Elements(resources), Elements(walked), Elements(searched));
    LeastIsAccessible(t, Elements(resources), Elements(searched));
  }
}
