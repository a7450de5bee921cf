/**
 The gift service's public page: which items it shows, what it says is left of each,
 and what a reservation made from it does.
 */
module GiftPublic {
  import opened Wrappers
  import opened GiftTables
  import opened Strings

  /** `isGiftListAvailable`, with the visibility test `getPublicList` adds to it. */
  predicate Open(list: GiftList, now: int) {
    list.isPublic && list.active && (list.neverExpires || (list.expiresAt.Some? && now < list.expiresAt.value))
  }

  /** `getPublicList`: the live row with the normalised code, if it is open now. */
  predicate OpensTo(lists: map<Id, GiftList>, now: int, code: string, list: Id) {
    list in lists && !lists[list].deleted && lists[list].shareCode == Upper(Trim(code)) && Open(lists[list], now)
  }

  /** The share code column is unique. */
  predicate UniqueCodes(lists: map<Id, GiftList>) {
    forall l, m {:trigger lists[l].shareCode, lists[m].shareCode} ::
      l in lists && m in lists && lists[l].shareCode == lists[m].shareCode ==> l == m
  }

  /** The rows `GetItemsByList` selects. */
  predicate Listed(t: Tables, list: Id, includeArchived: bool, item: Id) {
    && item in t.items && !t.items[item].deleted && t.items[item].listId == list && t.items[item].active
    && (includeArchived || !t.items[item].archived)
  }

  datatype ItemResponse = ItemResponse(
    id: Id, quantity: int, remaining: int, canReserve: bool, isReserved: bool, archived: bool)

  function Remaining(t: Tables, item: Id): int
    requires item in t.items
  {
    var left := t.items[item].quantity - ConfirmedSum(t.reservations, item);
    if left < 0 then 0 else left
  }

  predicate Describes(t: Tables, r: ItemResponse) {
    && r.id in t.items
    && var row := t.items[r.id];
       r == ItemResponse(r.id, row.quantity, Remaining(t, r.id),
                         Remaining(t, r.id) > 0 && row.active && !row.archived, Remaining(t, r.id) == 0, row.archived)
  }

  /** A response list shows each selected item once and nothing else. */
  ghost predicate Shows(t: Tables, list: Id, includeArchived: bool, out: seq<ItemResponse>) {
    && (forall k :: 0 <= k < |out| ==> Describes(t, out[k]) && Listed(t, list, includeArchived, out[k].id))
    && (forall j, k :: 0 <= j < k < |out| ==> out[j].id != out[k].id)
    && (forall i :: Listed(t, list, includeArchived, i) ==> exists k :: 0 <= k < |out| && out[k].id == i)
  }

  /**
   What the page shows is what a reservation can get: any quantity up to the shown remainder is
   accepted and any above it is refused; `canReserve` is the case of one, archived items included.
   */
  lemma ShownIsReservable(t: Tables, list: Id, includeArchived: bool, out: seq<ItemResponse>, k: nat, q: int)
    requires Shows(t, list, includeArchived, out) && k < |out| && q >= 1
    ensures !out[k].archived ==> (Verdict(t, out[k].id, q) == Accepted <==> q <= out[k].remaining)
    ensures out[k].canReserve <==> Verdict(t, out[k].id, 1) == Accepted
    ensures out[k].archived ==> Verdict(t, out[k].id, q) == NotFound
  {
    assert Describes(t, out[k]) && Listed(t, list, includeArchived, out[k].id);
  }

  /** A guest's request through a share code succeeds. */
  ghost predicate Reserves(t: Tables, now: int, code: string, item: Id, q: int) {
    (exists l :: OpensTo(t.lists, now, code, l) && Listed(t, l, false, item)) && Verdict(t, item, q) == Accepted
  }

  /**
   After a reservation made from the page the same item shows exactly that much less and every other
   item the same.
   */
  lemma ReservingLowersRemainder(t: Tables, item: Id, q: int, other: Id)
    requires Verdict(t, item, q) == Accepted && other in t.items
    ensures Remaining(Reserve(t, item, q), item) == Remaining(t, item) - q
    ensures other != item ==> Remaining(Reserve(t, item, q), other) == Remaining(t, other)
  {
    ReserveOnSum(t, item, q, item);
    ReserveOnSum(t, item, q, other);
  }

  function Public(t: Tables, list: Id): set<Id> {
    set i | i in t.items && Listed(t, list, false, i)
  }

  function OneFree(t: Tables, list: Id): set<Id> {
    set i | i in t.items && Listed(t, list, false, i) && Verdict(t, i, 1) == Accepted
  }

  function Ids(items: seq<ItemResponse>): (ids: set<Id>)
    ensures forall i :: i in ids <==> exists k :: 0 <= k < |items| && items[k].id == i
  {
    set k | 0 <= k < |items| :: items[k].id
  }

  function Free(items: seq<ItemResponse>): (ids: set<Id>)
    ensures forall i :: i in ids <==> exists k :: 0 <= k < |items| && items[k].id == i && items[k].remaining > 0
  {
    set k | 0 <= k < |items| && items[k].remaining > 0 :: items[k].id
  }

  lemma OneMoreId(items: seq<ItemResponse>)
    requires items != []
    ensures var front, last := items[..|items| - 1], items[|items| - 1];
            && Ids(items) == Ids(front) + {last.id}
            && Free(items) == Free(front) + if last.remaining > 0 then {last.id} else {}
  {
    var front, n := items[..|items| - 1], |items| - 1;
    forall i ensures i in Ids(items) <==> i in Ids(front) || i == items[n].id {
      if k :| 0 <= k < n && items[k].id == i { assert front[k].id == i; }
    }
    forall i ensures i in Free(items) <==> i in Free(front) || (i == items[n].id && items[n].remaining > 0) {
      if k :| 0 <= k < n && items[k].id == i && items[k].remaining > 0 { assert front[k].id == i; }
    }
  }

  lemma FreeAreIds(items: seq<ItemResponse>)
    ensures Free(items) <= Ids(items)
  {
  }

  /** What the counting loop of the public list computes. */
  function Available(items: seq<ItemResponse>): (n: nat)
    ensures n <= |items|
  {
    if items == [] then 0
    else Available(items[..|items| - 1]) + if items[|items| - 1].remaining > 0 then 1 else 0
  }

  lemma {:induction false} DistinctCount(items: seq<ItemResponse>)
    requires forall j, k :: 0 <= j < k < |items| ==> items[j].id != items[k].id
    ensures |Ids(items)| == |items| && |Free(items)| == Available(items)
  {
    if items != [] {
      var front, last := items[..|items| - 1], items[|items| - 1];
      DistinctCount(front);
      OneMoreId(items);
      FreeAreIds(front);
      assert last.id !in Ids(front);
    }
  }

  lemma ShownSets(t: Tables, list: Id, items: seq<ItemResponse>)
    requires Shows(t, list, false, items)
    ensures Ids(items) == Public(t, list) && Free(items) == OneFree(t, list)
  {
    forall i | i in Public(t, list) ensures i in Ids(items) && (i in OneFree(t, list) ==> i in Free(items)) {
      var k :| 0 <= k < |items| && items[k].id == i;
      assert items[k] in items && Describes(t, items[k]);
    }
    forall k | 0 <= k < |items|
      ensures items[k].id in Public(t, list) && (items[k].remaining > 0 ==> items[k].id in OneFree(t, list))
    {
      assert Describes(t, items[k]) && Listed(t, list, false, items[k].id);
    }
  }

  lemma ShownCounts(t: Tables, list: Id, items: seq<ItemResponse>)
    requires Shows(t, list, false, items)
    ensures |Public(t, list)| == |items| && |OneFree(t, list)| == Available(items)
  {
    ShownSets(t, list, items);
    DistinctCount(items);
  }

  predicate HasConfirmed(rows: seq<Reservation>, item: Id) {
    exists k :: 0 <= k < |rows| && rows[k].itemId == item && rows[k].status == Confirmed
  }

  lemma {:induction false} NoneConfirmedSumsToZero(rows: seq<Reservation>, item: Id)
    requires !HasConfirmed(rows, item)
    ensures ConfirmedSum(rows, item) == 0
  {
    if rows != [] {
      NoneConfirmedSumsToZero(rows[..|rows| - 1], item);
    }
  }

  lemma OneMoreRow(rows: seq<Reservation>, r: Reservation)
    ensures forall i :: ConfirmedSum(rows + [r], i) == ConfirmedSum(rows, i) + Share(r, i)
    ensures forall i :: HasConfirmed(rows + [r], i)
              <==> HasConfirmed(rows, i) || (r.itemId == i && r.status == Confirmed)
  {
    forall i ensures ConfirmedSum(rows + [r], i) == ConfirmedSum(rows, i) + Share(r, i) { SumAfterInsert(rows, r, i); }
    forall i
      ensures HasConfirmed(rows + [r], i) <==> HasConfirmed(rows, i) || (r.itemId == i && r.status == Confirmed)
    {
      if HasConfirmed(rows, i) {
        var k :| 0 <= k < |rows| && rows[k].itemId == i && rows[k].status == Confirmed;
        assert (rows + [r])[k] == rows[k];
      }
      assert (rows + [r])[|rows|] == r;
    }
  }

  datatype GiftError = ListNotFound | NotPublic | ItemNotFound | Refused(outcome: Outcome)

  class GiftService {
    var tables: Tables
    var now: int

    constructor (tables: Tables, now: int)
      ensures this.tables == tables && this.now == now
    {
      this.tables, this.now := tables, now;
    }

    /** The grouped sums, built row by row; an item without a confirmed reservation has no entry. */
    method GetReservedQuantities(ids: seq<Id>) returns (result: map<Id, int>)
      ensures forall i :: i in result <==> i in ids && HasConfirmed(tables.reservations, i)
      ensures forall i :: i in result ==> result[i] == ConfirmedSum(tables.reservations, i)
    {
      result := map[];
      var rows := tables.reservations;
      for n := 0 to |rows|
        invariant forall i :: i in result <==> i in ids && HasConfirmed(rows[..n], i)
        invariant forall i :: i in result ==> result[i] == ConfirmedSum(rows[..n], i)
      {
        var r := rows[n];
        assert rows[..n + 1] == rows[..n] + [r];
        OneMoreRow(rows[..n], r);
        if r.itemId in ids && r.status == Confirmed {
          if r.itemId !in result { NoneConfirmedSumsToZero(rows[..n], r.itemId); }
          result := result[r.itemId := (if r.itemId in result then result[r.itemId] else 0) + r.quantity];
        }
      }
      assert rows[..|rows|] == rows;
    }

    /** The ids of the selected items, each once. */
    method GetItemsByList(list: Id, includeArchived: bool) returns (ids: seq<Id>)
      ensures forall i :: i in ids <==> Listed(tables, list, includeArchived, i)
      ensures forall j, k :: 0 <= j < k < |ids| ==> ids[j] != ids[k]
    {
      ids := [];
      var todo := tables.items.Keys;
      while todo != {}
        invariant todo <= tables.items.Keys
        invariant forall i :: i in ids <==> i !in todo && Listed(tables, list, includeArchived, i)
        invariant forall j, k :: 0 <= j < k < |ids| ==> ids[j] != ids[k]
        decreases todo
      {
        var i :| i in todo;
        todo := todo - {i};
        if Listed(tables, list, includeArchived, i) { ids := ids + [i]; }
      }
    }

    method BuildItemResponses(list: Id, includeArchived: bool) returns (out: seq<ItemResponse>)
      ensures Shows(tables, list, includeArchived, out)
    {
      var ids := GetItemsByList(list, includeArchived);
      var reserved := GetReservedQuantities(ids);
      out := [];
      for n := 0 to |ids|
        invariant |out| == n
        invariant forall k :: 0 <= k < n ==> out[k].id == ids[k] && Describes(tables, out[k])
      {
        var item := tables.items[ids[n]];
        if ids[n] !in reserved { NoneConfirmedSumsToZero(tables.reservations, ids[n]); }
        var remaining := item.quantity - (if ids[n] in reserved then reserved[ids[n]] else 0);
        if remaining < 0 { remaining := 0; }
        out := out + [ItemResponse(ids[n], item.quantity, remaining,
                                   remaining > 0 && item.active && !item.archived, remaining == 0, item.archived)];
      }
      forall i | Listed(tables, list, includeArchived, i) ensures exists k :: 0 <= k < |out| && out[k].id == i {
        var k :| 0 <= k < |ids| && ids[k] == i;
        assert out[k].id == i;
      }
    }

    method GetListByShareCode(code: string) returns (r: Option<Id>)
      requires UniqueCodes(tables.lists)
      ensures r.Some? ==> r.value in tables.lists
      ensures forall l :: l in tables.lists && !tables.lists[l].deleted && tables.lists[l].shareCode == code
                <==> r == Some(l)
    {
      if l :| l in tables.lists && !tables.lists[l].deleted && tables.lists[l].shareCode == code {
        return Some(l);
      }
      return None;
    }

    method GetPublicList(code: string) returns (r: Result<Id, GiftError>)
      requires UniqueCodes(tables.lists)
      ensures forall l :: OpensTo(tables.lists, now, code, l) <==> r == Ok(l)
      ensures r == Err(ListNotFound) <==>
        forall l :: l in tables.lists && !tables.lists[l].deleted ==> tables.lists[l].shareCode != Upper(Trim(code))
      ensures r.Ok? || r == Err(ListNotFound) || r == Err(NotPublic)
    {
      var found := GetListByShareCode(Upper(Trim(code)));
      if found.None? { return Err(ListNotFound); }
      if !Open(tables.lists[found.value], now) { return Err(NotPublic); }
      return Ok(found.value);
    }

    /** Each item on the page says up to which quantity a reservation through the same code succeeds now. */
    method GetPublicItems(code: string) returns (r: Result<seq<ItemResponse>, GiftError>)
      requires UniqueCodes(tables.lists)
      ensures r.Ok? <==> exists l :: OpensTo(tables.lists, now, code, l)
      ensures r.Ok? ==> exists l :: OpensTo(tables.lists, now, code, l) && Shows(tables, l, false, r.value)
      ensures r.Ok? ==> forall k, q :: 0 <= k < |r.value| && q >= 1 ==>
        (Reserves(tables, now, code, r.value[k].id, q) <==> q <= r.value[k].remaining)
    {
      var list := GetPublicList(code);
      if list.Err? { return Err(list.error); }
      assert OpensTo(tables.lists, now, code, list.value);
      var items := BuildItemResponses(list.value, false);
      forall k, q | 0 <= k < |items| && q >= 1
        ensures Reserves(tables, now, code, items[k].id, q) <==> q <= items[k].remaining
      {
        ShownIsReservable(tables, list.value, false, items, k, q);
        assert Listed(tables, list.value, false, items[k].id) && Describes(tables, items[k]);
      }
      return Ok(items);
    }

    /** The two counters of the public list: the items one guest could still reserve one of, and the rest. */
    method CountPublicItems(list: Id) returns (available: nat, reserved: nat)
      ensures available == |OneFree(tables, list)|
      ensures available + reserved == |Public(tables, list)|
    {
      var items := BuildItemResponses(list, false);
      available, reserved := CountItems(items);
      ShownCounts(tables, list, items);
    }

    /** The counting loop. */
    method CountItems(items: seq<ItemResponse>) returns (available: nat, reserved: nat)
      ensures available == Available(items) && available + reserved == |items|
    {
      available, reserved := 0, 0;
      for n := 0 to |items|
        invariant available == Available(items[..n]) && available + reserved == n
      {
        assert items[..n + 1][..n] == items[..n];
        if items[n].remaining > 0 { available := available + 1; } else { reserved := reserved + 1; }
      }
      assert items[..|items|] == items;
    }

    /** The transaction on its own, with no other running beside it. */
    method CreateReservationWithAvailability(item: Id, q: int) returns (o: Outcome)
      modifies this`tables
      ensures o == Verdict(old(tables), item, q)
      ensures tables == Reserve(old(tables), item, q)
    {
      if !Reservable(tables, item) { return NotFound; }
      var reserved := ConfirmedSum(tables.reservations, item);
      if tables.items[item].quantity - reserved < q {
        return Insufficient(tables.items[item].quantity - reserved);
      }
      if q <= 0 { return Invalid; }
      tables := tables.(reservations := tables.reservations + [NewRow(item, q)]);
      return Accepted;
    }

    /** A reservation through a share code, with the service's own checks before the transaction's. */
    method CreatePublicReservation(code: string, item: Id, q: int) returns (r: Result<nat, GiftError>)
      modifies this`tables
      requires UniqueCodes(tables.lists)
      ensures r.Ok? <==> Reserves(old(tables), now, code, item, q)
      ensures r.Ok? ==> tables == Reserve(old(tables), item, q) && r.value == |old(tables).reservations|
      ensures r.Err? ==> tables == old(tables)
      ensures r.Err? && r.error.Refused? ==> r.error.outcome == Verdict(old(tables), item, q)
      ensures r == Err(ItemNotFound) <==>
        && (exists l :: OpensTo(old(tables).lists, now, code, l))
        && (item !in old(tables).items || old(tables).items[item].deleted)
    {
      var list := GetPublicList(code);
      if list.Err? { return Err(list.error); }
      if item !in tables.items || tables.items[item].deleted { return Err(ItemNotFound); }
      if tables.items[item].listId != list.value || !tables.items[item].active || tables.items[item].archived {
        return Err(NotPublic);
      }
      var id := |tables.reservations|;
      assert Listed(tables, list.value, false, item);
      var o := CreateReservationWithAvailability(item, q);
      if o != Accepted { return Err(Refused(o)); }
      return Ok(id);
    }

    /** Owner actions, field by field on the row that is then saved. */
    method CancelReservation(owner: Id, rid: nat) returns (ok: bool)
      modifies this`tables
      ensures ok <==> Effective(old(tables), Cancel(owner, rid))
      ensures tables == Act(old(tables), Cancel(owner, rid))
    {
      if !OwnsReservation(tables, owner, rid) { return false; }
      var reservation := tables.reservations[rid];
      reservation := reservation.(status := Canceled);
      reservation := reservation.(canceledBy := Some(owner));
      tables := tables.(reservations := tables.reservations[rid := reservation]);
      return true;
    }

    method MarkReservationThanked(owner: Id, rid: nat) returns (ok: bool)
      modifies this`tables
      ensures ok <==> Effective(old(tables), Thank(owner, rid))
      ensures tables == Act(old(tables), Thank(owner, rid))
    {
      if !OwnsReservation(tables, owner, rid) { return false; }
      var reservation := tables.reservations[rid];
      reservation := reservation.(thanked := true);
      tables := tables.(reservations := tables.reservations[rid := reservation]);
      return true;
    }

    method UpdateItem(owner: Id, item: Id, quantity: Option<int>, active: Option<bool>, archived: Option<bool>)
      returns (ok: bool)
      modifies this`tables
      ensures ok <==> Effective(old(tables), EditItem(owner, item, quantity, active, archived))
      ensures tables == Act(old(tables), EditItem(owner, item, quantity, active, archived))
    {
      if !OwnsItem(tables, owner, item) { return false; }
      var row := tables.items[item];
      if quantity.Some? { row := row.(quantity := quantity.value); }
      if active.Some? { row := row.(active := active.value); }
      if archived.Some? { row := row.(archived := archived.value); }
      if row.quantity <= 0 { return false; }
      tables := tables.(items := tables.items[item := row]);
      return true;
    }

    method UpdateList(owner: Id, list: Id, patch: ListPatch) returns (ok: bool)
      modifies this`tables
      ensures ok <==> Effective(old(tables), EditList(owner, list, patch))
      ensures tables == Act(old(tables), EditList(owner, list, patch))
    {
      if !OwnsList(tables.lists, owner, list) { return false; }
      var row := PatchList(tables.lists[list], patch);
      tables := tables.(lists := tables.lists[list := row]);
      return true;
    }

    /** Its field updates, in their order. */
    method PatchList(list: GiftList, patch: ListPatch) returns (row: GiftList)
      ensures row == PatchedList(list, patch)
    {
      row := list;
      if patch.visible.Some? { row := row.(isPublic := patch.visible.value); }
      if patch.active.Some? { row := row.(active := patch.active.value); }
      row := PatchExpiry(row, patch);
    }

    method PatchExpiry(list: GiftList, patch: ListPatch) returns (row: GiftList)
      ensures row == PatchedList(list, patch.(visible := None, active := None))
    {
      row := list;
      if patch.neverExpires.Some? {
        row := row.(neverExpires := patch.neverExpires.value);
        if row.neverExpires { row := row.(expiresAt := None); }
      }
      if patch.expiresAt.Some? {
        row := row.(expiresAt := patch.expiresAt);
        row := row.(neverExpires := false);
      }
    }

    method DeleteList(owner: Id, list: Id) returns (ok: bool)
      modifies this`tables
      ensures ok <==> Effective(old(tables), DropList(owner, list))
      ensures tables == Act(old(tables), DropList(owner, list))
    {
      if !OwnsList(tables.lists, owner, list) { return false; }
      tables := tables.(lists := tables.lists[list := tables.lists[list].(deleted := true)]);
      return true;
    }
  }
}
