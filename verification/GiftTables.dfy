/**
 The gift tables and the operations that read and change them one at a time:
 the atomic meaning of a guest reservation and of each owner action.

 A reservation row's position in the table is its id; rows are only ever appended
 or saved over. Soft deletion is a flag on the row.
 */
module GiftTables {
  import opened Wrappers

  type Id = string

  datatype GiftList = GiftList(
    ownerId: Id, shareCode: string, isPublic: bool, active: bool,
    neverExpires: bool, expiresAt: Option<int>, deleted: bool)

  datatype GiftItem = GiftItem(listId: Id, quantity: int, active: bool, archived: bool, deleted: bool)

  datatype Status = Confirmed | Canceled

  datatype Reservation = Reservation(itemId: Id, quantity: int, status: Status, thanked: bool, canceledBy: Option<Id>)

  datatype Tables = Tables(lists: map<Id, GiftList>, items: map<Id, GiftItem>, reservations: seq<Reservation>)

  // ---------- Sums of confirmed reservations ----------

  function Share(r: Reservation, item: Id): int {
    if r.itemId == item && r.status == Confirmed then r.quantity else 0
  }

  /** The sum the reservation transaction asks the database for. */
  function ConfirmedSum(rows: seq<Reservation>, item: Id): int {
    if rows == [] then 0 else ConfirmedSum(rows[..|rows| - 1], item) + Share(rows[|rows| - 1], item)
  }

  lemma SumAfterInsert(rows: seq<Reservation>, r: Reservation, item: Id)
    ensures ConfirmedSum(rows + [r], item) == ConfirmedSum(rows, item) + Share(r, item)
  {
    assert (rows + [r])[..|rows|] == rows;
  }

  lemma {:induction false} SumAfterSave(rows: seq<Reservation>, k: nat, r: Reservation, item: Id)
    requires k < |rows|
    ensures ConfirmedSum(rows[k := r], item)
         == ConfirmedSum(rows, item) - Share(rows[k], item) + Share(r, item)
  {
    var n := |rows| - 1;
    if k == n {
      assert rows[k := r][..n] == rows[..n];
    } else {
      assert rows[k := r][..n] == rows[..n][k := r];
      SumAfterSave(rows[..n], k, r, item);
    }
  }

  lemma {:induction false} SumOfUnreferenced(rows: seq<Reservation>, item: Id)
    requires forall k :: 0 <= k < |rows| ==> rows[k].itemId != item
    ensures ConfirmedSum(rows, item) == 0
  {
    if rows != [] { SumOfUnreferenced(rows[..|rows| - 1], item); }
  }

  // ---------- A guest reservation as one atomic operation ----------

  datatype Outcome = Accepted | Insufficient(remaining: int) | NotFound | Invalid

  predicate Reservable(t: Tables, item: Id) {
    item in t.items && !t.items[item].deleted && t.items[item].active && !t.items[item].archived
  }

  /** What a transaction that saw `row` and `sum` decides; the table's CHECK refuses a quantity below 1. */
  function Decide(row: GiftItem, sum: int, q: int): Outcome {
    if row.quantity - sum < q then Insufficient(row.quantity - sum)
    else if q <= 0 then Invalid
    else Accepted
  }

  function Verdict(t: Tables, item: Id, q: int): Outcome {
    if !Reservable(t, item) then NotFound
    else Decide(t.items[item], ConfirmedSum(t.reservations, item), q)
  }

  function NewRow(item: Id, q: int): Reservation {
    Reservation(item, q, Confirmed, false, None)
  }

  function Reserve(t: Tables, item: Id, q: int): Tables {
    if Verdict(t, item, q) == Accepted then t.(reservations := t.reservations + [NewRow(item, q)]) else t
  }

  lemma ReserveOnSum(t: Tables, item: Id, q: int, other: Id)
    requires Verdict(t, item, q) == Accepted
    ensures ConfirmedSum(Reserve(t, item, q).reservations, other)
         == ConfirmedSum(t.reservations, other) + if other == item then q else 0
  {
    SumAfterInsert(t.reservations, NewRow(item, q), other);
  }

  // ---------- Owner actions ----------

  datatype OwnerOp =
    | Cancel(owner: Id, rid: nat)
    | Thank(owner: Id, rid: nat)
    | EditItem(owner: Id, item: Id, quantity: Option<int>, active: Option<bool>, archived: Option<bool>)
    | DropItem(owner: Id, item: Id)
    | AddItem(owner: Id, list: Id, item: Id, initial: int)
    | EditList(owner: Id, list: Id, patch: ListPatch)
    | DropList(owner: Id, list: Id)

  datatype ListPatch = ListPatch(
    visible: Option<bool>, active: Option<bool>, neverExpires: Option<bool>, expiresAt: Option<int>)

  predicate OwnsList(lists: map<Id, GiftList>, owner: Id, list: Id) {
    list in lists && !lists[list].deleted && lists[list].ownerId == owner
  }

  /** A new expiry makes a list expire, and a list that never expires has none. */
  function PatchedList(l: GiftList, patch: ListPatch): GiftList {
    var l1 := l.(isPublic := Get(patch.visible, l.isPublic), active := Get(patch.active, l.active));
    var l2 := if patch.neverExpires.None? then l1
              else l1.(neverExpires := patch.neverExpires.value,
                       expiresAt := if patch.neverExpires.value then None else l1.expiresAt);
    if patch.expiresAt.None? then l2 else l2.(expiresAt := patch.expiresAt, neverExpires := false)
  }

  predicate OwnsItem(t: Tables, owner: Id, item: Id) {
    item in t.items && !t.items[item].deleted && OwnsList(t.lists, owner, t.items[item].listId)
  }

  predicate OwnsReservation(t: Tables, owner: Id, rid: nat) {
    rid < |t.reservations| && OwnsItem(t, owner, t.reservations[rid].itemId)
  }

  function Get<T>(o: Option<T>, current: T): T { if o.Some? then o.value else current }

  function Edited(row: GiftItem, quantity: Option<int>, active: Option<bool>, archived: Option<bool>): GiftItem {
    row.(quantity := Get(quantity, row.quantity),
         active := Get(active, row.active),
         archived := Get(archived, row.archived))
  }

  /** Does the action pass its checks, including the tables' CHECK (quantity > 0) and primary key? */
  predicate Effective(t: Tables, op: OwnerOp) {
    match op
    case Cancel(owner, rid) => OwnsReservation(t, owner, rid)
    case Thank(owner, rid) => OwnsReservation(t, owner, rid)
    case EditItem(owner, item, quantity, active, archived) =>
      OwnsItem(t, owner, item) && Edited(t.items[item], quantity, active, archived).quantity > 0
    case DropItem(owner, item) => OwnsItem(t, owner, item)
    case AddItem(owner, list, item, initial) => OwnsList(t.lists, owner, list) && item !in t.items && initial > 0
    case EditList(owner, list, _) => OwnsList(t.lists, owner, list)
    case DropList(owner, list) => OwnsList(t.lists, owner, list)
  }

  function Act(t: Tables, op: OwnerOp): Tables {
    if !Effective(t, op) then t
    else match op
      case Cancel(owner, rid) =>
        t.(reservations := t.reservations[rid := t.reservations[rid].(status := Canceled, canceledBy := Some(owner))])
      case Thank(owner, rid) =>
        t.(reservations := t.reservations[rid := t.reservations[rid].(thanked := true)])
      case EditItem(owner, item, quantity, active, archived) =>
        t.(items := t.items[item := Edited(t.items[item], quantity, active, archived)])
      case DropItem(owner, item) =>
        t.(items := t.items[item := t.items[item].(deleted := true)])
      case AddItem(owner, list, item, initial) =>
        t.(items := t.items[item := GiftItem(list, initial, true, false, false)])
      case EditList(owner, list, patch) =>
        t.(lists := t.lists[list := PatchedList(t.lists[list], patch)])
      case DropList(owner, list) =>
        t.(lists := t.lists[list := t.lists[list].(deleted := true)])
  }

  /** Rows point at existing items and hold positive quantities: the foreign key and the CHECK. */
  predicate WellFormed(t: Tables) {
    forall k :: 0 <= k < |t.reservations| ==>
      t.reservations[k].itemId in t.items && t.reservations[k].quantity > 0
  }

  lemma ActKeepsWellFormed(t: Tables, op: OwnerOp)
    requires WellFormed(t)
    ensures WellFormed(Act(t, op))
  {
  }

  /** An owner action moves a confirmed sum only by cancelling: by exactly the cancelled quantity, and downwards. */
  lemma ActOnSum(t: Tables, op: OwnerOp, item: Id)
    requires WellFormed(t)
    ensures ConfirmedSum(Act(t, op).reservations, item) == ConfirmedSum(t.reservations, item)
         - (if op.Cancel? && Effective(t, op) then Share(t.reservations[op.rid], item) else 0)
    ensures ConfirmedSum(Act(t, op).reservations, item) <= ConfirmedSum(t.reservations, item)
  {
    if Effective(t, op) && (op.Cancel? || op.Thank?) {
      SumAfterSave(t.reservations, op.rid, Act(t, op).reservations[op.rid], item);
    }
  }

  /** A second cancel right after the first, by whomever, frees nothing more. */
  lemma CancelTwiceFreesOnce(t: Tables, owner: Id, again: Id, rid: nat, item: Id)
    requires WellFormed(t) && OwnsReservation(t, owner, rid)
    ensures var once := Act(t, Cancel(owner, rid));
            && ConfirmedSum(once.reservations, item)
               == ConfirmedSum(t.reservations, item) - Share(t.reservations[rid], item)
            && ConfirmedSum(Act(once, Cancel(again, rid)).reservations, item) == ConfirmedSum(once.reservations, item)
  {
    var once := Act(t, Cancel(owner, rid));
    ActOnSum(t, Cancel(owner, rid), item);
    ActKeepsWellFormed(t, Cancel(owner, rid));
    ActOnSum(once, Cancel(again, rid), item);
  }

  /** No item is promised beyond its quantity. */
  predicate NotOverbooked(t: Tables) {
    forall i :: i in t.items ==> ConfirmedSum(t.reservations, i) <= t.items[i].quantity
  }

  /** The one owner action that can overbook: storing a quantity below what is already confirmed. */
  predicate Undercuts(t: Tables, op: OwnerOp) {
    op.EditItem? && Effective(t, op)
    && Get(op.quantity, t.items[op.item].quantity) < ConfirmedSum(t.reservations, op.item)
  }

  lemma ActOverbooksIffUndercuts(t: Tables, op: OwnerOp)
    requires WellFormed(t) && NotOverbooked(t)
    ensures NotOverbooked(Act(t, op)) <==> !Undercuts(t, op)
  {
    var u := Act(t, op);
    forall i | i in t.items ensures ConfirmedSum(u.reservations, i) <= ConfirmedSum(t.reservations, i) {
      ActOnSum(t, op, i);
    }
    if op.EditItem? && Effective(t, op) {
      assert u.reservations == t.reservations;
      assert op.item in u.items && u.items[op.item].quantity == Get(op.quantity, t.items[op.item].quantity);
    } else if op.AddItem? && Effective(t, op) {
      SumOfUnreferenced(t.reservations, op.item);
    }
  }

  lemma ReserveKeepsSound(t: Tables, item: Id, q: int)
    requires WellFormed(t) && NotOverbooked(t)
    ensures WellFormed(Reserve(t, item, q)) && NotOverbooked(Reserve(t, item, q))
  {
    forall i | i in t.items
      ensures ConfirmedSum(Reserve(t, item, q).reservations, i) <= t.items[i].quantity
    {
      SumAfterInsert(t.reservations, NewRow(item, q), i);
    }
  }
}
