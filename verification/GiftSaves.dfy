/**
 Reservations beside owner actions that are not one step: the thank-you, the cancellation and the
 edit read a row, and save all of it, changed, later, after any number of other steps. Saving an item
 row waits for its lock; saving a reservation row does not.
 */
module GiftSaves {
  import opened Wrappers
  import opened GiftTables
  import opened GiftReservations

  datatype OwnerRead =
    | ReservationRead(owner: Id, rid: nat, row: Reservation)
    | ItemRead(item: Id, stored: GiftItem)

  datatype State = State(base: System, held: map<nat, OwnerRead>)

  datatype Move =
    | Do(step: Step)
    | ReadReservation(call: nat, owner: Id, rid: nat)
    | ReadItemRow(call: nat, owner: Id, item: Id)
    | SaveThanks(call: nat)
    | SaveCancel(call: nat)
    | SaveItem(call: nat, quantity: Option<int>, active: Option<bool>, archived: Option<bool>)

  predicate Allowed(s: State, m: Move) {
    match m
    case Do(step) => Enabled(s.base, step)
    case ReadReservation(call, owner, rid) => call !in s.held && OwnsReservation(s.base.tables, owner, rid)
    case ReadItemRow(call, owner, item) => call !in s.held && OwnsItem(s.base.tables, owner, item)
    case SaveThanks(call) => call in s.held && s.held[call].ReservationRead?
    case SaveCancel(call) => call in s.held && s.held[call].ReservationRead?
    case SaveItem(call, quantity, active, archived) =>
      && call in s.held && s.held[call].ItemRead? && s.held[call].item !in s.base.locks
      && Edited(s.held[call].stored, quantity, active, archived).quantity > 0
  }

  /** The row a save of a reservation writes. */
  function Written(read: OwnerRead, m: Move): Reservation
    requires read.ReservationRead?
  {
    if m.SaveThanks? then read.row.(thanked := true)
    else read.row.(status := Canceled, canceledBy := Some(read.owner))
  }

  function Saved(t: Tables, rid: nat, row: Reservation): Tables {
    if rid < |t.reservations| then t.(reservations := t.reservations[rid := row]) else t
  }

  function After(s: State, m: Move): State
    requires Allowed(s, m)
  {
    match m
    case Do(step) => s.(base := Next(s.base, step))
    case ReadReservation(call, owner, rid) =>
      s.(held := s.held[call := ReservationRead(owner, rid, s.base.tables.reservations[rid])])
    case ReadItemRow(call, _, item) => s.(held := s.held[call := ItemRead(item, s.base.tables.items[item])])
    case SaveItem(call, quantity, active, archived) =>
      var read := s.held[call];
      State(s.base.(tables := SaveStaleItem(s.base.tables, read.item, read.stored, quantity, active, archived)),
            s.held - {call})
    case save =>
      var read := s.held[save.call];
      State(s.base.(tables := Saved(s.base.tables, read.rid, Written(read, save))), s.held - {save.call})
  }

  datatype Course = Outset(now: int, tables: Tables) | Thereafter(before: Course, m: Move)

  predicate Feasible(c: Course)
    decreases c, 0
  {
    match c
    case Outset(_, t) => WellFormed(t)
    case Thereafter(before, m) => Feasible(before) && Allowed(Reached(before), m)
  }

  function Reached(c: Course): State
    requires Feasible(c)
    decreases c, 1
  {
    match c
    case Outset(now, t) => State(System(now, t, map[], map[]), map[])
    case Thereafter(before, m) => After(Reached(before), m)
  }

  // ---------- What every move keeps ----------

  /** What was read still names the same row, item and quantity. */
  predicate ReadSound(t: Tables, read: OwnerRead) {
    match read
    case ReservationRead(_, rid, row) =>
      && rid < |t.reservations|
      && row.itemId == t.reservations[rid].itemId && row.quantity == t.reservations[rid].quantity
    case ItemRead(item, _) => item in t.items
  }

  predicate Kept(s: State) {
    Steady(s.base) && forall c :: c in s.held ==> ReadSound(s.base.tables, s.held[c])
  }

  lemma StepKeepsRead(s: System, step: Step, read: OwnerRead)
    requires Enabled(s, step) && ReadSound(s.tables, read)
    ensures ReadSound(Next(s, step).tables, read)
  {
  }

  lemma SaveKeepsSteady(s: State, m: Move)
    requires Kept(s) && Allowed(s, m) && !m.Do?
    ensures Steady(After(s, m).base)
  {
    var b, n := s.base, After(s, m).base;
    if m.SaveThanks? || m.SaveCancel? || m.SaveItem? { assert ReadSound(b.tables, s.held[m.call]); }
    forall tx | tx in n.txs ensures TxHolds(n, tx) { assert TxHolds(b, tx); }
    forall i | i in n.locks ensures Owned(n, i) { assert Owned(b, i); }
  }

  lemma SaveKeepsRead(s: State, m: Move, read: OwnerRead)
    requires Kept(s) && Allowed(s, m) && !m.Do? && ReadSound(s.base.tables, read)
    ensures ReadSound(After(s, m).base.tables, read)
  {
    if m.SaveThanks? || m.SaveCancel? || m.SaveItem? { assert ReadSound(s.base.tables, s.held[m.call]); }
  }

  lemma {:induction false} AlwaysKept(c: Course)
    requires Feasible(c)
    ensures Kept(Reached(c))
  {
    if c.Thereafter? {
      var s, m := Reached(c.before), c.m;
      AlwaysKept(c.before);
      if m.Do? { StepKeepsSteady(s.base, m.step); } else { SaveKeepsSteady(s, m); }
      forall k | k in Reached(c).held ensures ReadSound(Reached(c).base.tables, Reached(c).held[k]) {
        if k in s.held && s.held[k] == Reached(c).held[k] {
          if m.Do? { StepKeepsRead(s.base, m.step, s.held[k]); } else { SaveKeepsRead(s, m, s.held[k]); }
        }
      }
    }
  }

  /** A save puts back the row as it was read, but for the thanks, or for the cancellation. */
  lemma SavesWrite(s: State, m: Move)
    requires Kept(s) && Allowed(s, m) && (m.SaveThanks? || m.SaveCancel?)
    ensures var read := s.held[m.call];
            read.rid < |After(s, m).base.tables.reservations|
    ensures var read, row := s.held[m.call], After(s, m).base.tables.reservations[s.held[m.call].rid];
            && row.itemId == read.row.itemId && row.quantity == read.row.quantity
            && (m.SaveThanks? ==> row.thanked && row.status == read.row.status && row.canceledBy == read.row.canceledBy)
            && (m.SaveCancel? ==>
                  row.status == Canceled && row.canceledBy == Some(read.owner) && row.thanked == read.row.thanked)
  {
    assert ReadSound(s.base.tables, s.held[m.call]);
  }

  // ---------- Which moves overbook ----------

  /** By how much a move raises the confirmed sum of an item, read off the state before it. */
  function Moved(s: State, m: Move, item: Id): int
    requires Kept(s) && Allowed(s, m)
  {
    match m
    case Do(Commit(tx)) => if s.base.txs[tx].item == item then s.base.txs[tx].q else 0
    case Do(Owner(Cancel(owner, rid))) =>
      if Effective(s.base.tables, Cancel(owner, rid)) then -Share(s.base.tables.reservations[rid], item) else 0
    case SaveThanks(call) =>
      assert ReadSound(s.base.tables, s.held[call]);
      Share(s.held[call].row, item) - Share(s.base.tables.reservations[s.held[call].rid], item)
    case SaveCancel(call) =>
      assert ReadSound(s.base.tables, s.held[call]);
      -Share(s.base.tables.reservations[s.held[call].rid], item)
    case _ => 0
  }

  lemma SumMoves(s: State, m: Move, item: Id)
    requires Kept(s) && Allowed(s, m)
    ensures ConfirmedSum(After(s, m).base.tables.reservations, item)
         == ConfirmedSum(s.base.tables.reservations, item) + Moved(s, m, item)
  {
    if m.Do? {
      StepMoves(s, m.step, item);
    } else if m.SaveThanks? || m.SaveCancel? {
      SaveMoves(s, m, item);
    }
  }

  lemma StepMoves(s: State, step: Step, item: Id)
    requires Kept(s) && Enabled(s.base, step)
    ensures ConfirmedSum(Next(s.base, step).tables.reservations, item)
         == ConfirmedSum(s.base.tables.reservations, item) + Moved(s, Do(step), item)
  {
    var t := s.base.tables;
    if step.Commit? {
      var p := s.base.txs[step.tx];
      SumAfterInsert(t.reservations, NewRow(p.item, p.q), item);
    } else if step.Owner? {
      ActOnSum(t, step.op, item);
    } else {
      assert Next(s.base, step).tables == t;
    }
  }

  lemma SaveMoves(s: State, m: Move, item: Id)
    requires Kept(s) && Allowed(s, m) && (m.SaveThanks? || m.SaveCancel?)
    ensures ConfirmedSum(After(s, m).base.tables.reservations, item)
         == ConfirmedSum(s.base.tables.reservations, item) + Moved(s, m, item)
  {
    var read := s.held[m.call];
    assert ReadSound(s.base.tables, read);
    SumAfterSave(s.base.tables.reservations, read.rid, Written(read, m), item);
  }

  /** The move stores less than is confirmed, or confirms more than is left: read off the state before it. */
  predicate Overbooks(s: State, m: Move)
    requires Kept(s) && Allowed(s, m)
  {
    var t := s.base.tables;
    match m
    case Do(Commit(tx)) =>
      var p := s.base.txs[tx];
      p.item in t.items && t.items[p.item].quantity < ConfirmedSum(t.reservations, p.item) + p.q
    case Do(Owner(op)) => Undercuts(t, op)
    case SaveThanks(call) =>
      var row := s.held[call].row;
      Moved(s, m, row.itemId) > 0
      && row.itemId in t.items && t.items[row.itemId].quantity < ConfirmedSum(t.reservations, row.itemId) + row.quantity
    case SaveItem(call, quantity, _, _) =>
      Get(quantity, s.held[call].stored.quantity) < ConfirmedSum(t.reservations, s.held[call].item)
    case _ => false
  }

  lemma MoveOverbooksIff(s: State, m: Move)
    requires Kept(s) && Allowed(s, m) && NotOverbooked(s.base.tables)
    ensures NotOverbooked(After(s, m).base.tables) <==> !Overbooks(s, m)
  {
    var t, u := s.base.tables, After(s, m).base.tables;
    if m.Do? && m.step.Owner? {
      ActOverbooksIffUndercuts(t, m.step.op);
    } else if m.SaveItem? {
      assert ReadSound(t, s.held[m.call]);
      StaleEditOverbooksIff(t, s.held[m.call].item, s.held[m.call].stored, m.quantity, m.active, m.archived);
    } else {
      SumsOverbookIff(s, m);
    }
  }

  lemma SumsOverbookIff(s: State, m: Move)
    requires Kept(s) && Allowed(s, m) && NotOverbooked(s.base.tables)
    requires !m.SaveItem? && !(m.Do? && m.step.Owner?)
    ensures NotOverbooked(After(s, m).base.tables) <==> !Overbooks(s, m)
  {
    var t, u := s.base.tables, After(s, m).base.tables;
    assert u.items == t.items;
    forall i
      ensures ConfirmedSum(u.reservations, i) == ConfirmedSum(t.reservations, i) + Moved(s, m, i)
      ensures i in t.items && t.items[i].quantity < ConfirmedSum(t.reservations, i) + Moved(s, m, i) ==> Overbooks(s, m)
    {
      SumMoves(s, m, i);
      if i in t.items && t.items[i].quantity < ConfirmedSum(t.reservations, i) + Moved(s, m, i) {
        MovedOverbooks(s, m, i);
      }
    }
    if Overbooks(s, m) { OverbooksSome(s, m); }
  }

  /** If an item's sum rises above its quantity the guard holds. */
  lemma MovedOverbooks(s: State, m: Move, i: Id)
    requires Kept(s) && Allowed(s, m) && NotOverbooked(s.base.tables)
    requires !m.SaveItem? && !(m.Do? && m.step.Owner?) && i in s.base.tables.items
    requires s.base.tables.items[i].quantity < ConfirmedSum(s.base.tables.reservations, i) + Moved(s, m, i)
    ensures Overbooks(s, m)
  {
    if m.SaveThanks? || m.SaveCancel? {
      var read := s.held[m.call];
      assert ReadSound(s.base.tables, read) && s.base.tables.reservations[read.rid].quantity > 0;
    }
  }

  /** ... and if it holds, some item's sum does. */
  lemma OverbooksSome(s: State, m: Move)
    requires Kept(s) && Allowed(s, m) && Overbooks(s, m)
    requires !m.SaveItem? && !(m.Do? && m.step.Owner?)
    ensures exists i :: i in s.base.tables.items
              && s.base.tables.items[i].quantity < ConfirmedSum(s.base.tables.reservations, i) + Moved(s, m, i)
  {
    if m.SaveThanks? {
      var read := s.held[m.call];
      assert ReadSound(s.base.tables, read) && s.base.tables.reservations[read.rid].quantity > 0;
      assert read.row.itemId in s.base.tables.items;
    } else {
      assert s.base.txs[m.step.tx].item in s.base.tables.items;
    }
  }

  predicate NeverBooksOver(c: Course)
    requires Feasible(c)
  {
    NotOverbooked(Reached(c).base.tables) && (c.Thereafter? ==> NeverBooksOver(c.before))
  }

  ghost predicate NoMoveOverbooks(c: Course)
    requires Feasible(c)
  {
    c.Thereafter? ==>
      && NoMoveOverbooks(c.before)
      && (Kept(Reached(c.before)) ==> !Overbooks(Reached(c.before), c.m))
  }

  function OutsetTables(c: Course): Tables {
    match c case Outset(_, t) => t case Thereafter(before, _) => OutsetTables(before)
  }

  /**
   Whatever the interleaving of transactions, owner actions and split reads and saves, no item is
   ever promised beyond its quantity exactly when no edit or item save stores less than is confirmed,
   no save revives a cancelled reservation without room, and no commit finds its room gone.
   */
  lemma {:induction false} NeverOverbookedIff(c: Course)
    requires Feasible(c) && NotOverbooked(OutsetTables(c))
    ensures NeverBooksOver(c) <==> NoMoveOverbooks(c)
  {
    if c.Thereafter? {
      NeverOverbookedIff(c.before);
      AlwaysKept(c.before);
      if NeverBooksOver(c.before) { MoveOverbooksIff(Reached(c.before), c.m); }
    }
  }

  // ---------- When a commit finds its room gone ----------

  predicate HasSummed(s: State, tx: Tx) {
    tx in s.base.txs && (s.base.txs[tx].Summed? || s.base.txs[tx].Inserted?)
  }

  /** How far saves and cancellations have moved the sum of a transaction's item since the transaction read it. */
  ghost function Drift(c: Course, tx: Tx): int
    requires Feasible(c)
  {
    match c
    case Outset(_, _) => 0
    case Thereafter(before, m) =>
      var s := Reached(before);
      if !HasSummed(s, tx) || !Kept(s) then 0 else Drift(before, tx) + Moved(s, m, s.base.txs[tx].item)
  }

  lemma OthersCommitElsewhere(s: State, m: Move, tx: Tx)
    requires Kept(s) && Allowed(s, m) && HasSummed(s, tx) && HasSummed(After(s, m), tx)
    ensures After(s, m).base.txs[tx].item == s.base.txs[tx].item
    ensures After(s, m).base.txs[tx].sum == s.base.txs[tx].sum
    ensures After(s, m).base.txs[tx].row == s.base.txs[tx].row
  {
  }

  lemma {:induction false} SumHasDrifted(c: Course, tx: Tx)
    requires Feasible(c) && HasSummed(Reached(c), tx)
    ensures var s := Reached(c).base;
            ConfirmedSum(s.tables.reservations, s.txs[tx].item) == s.txs[tx].sum + Drift(c, tx)
  {
    var s := Reached(c.before);
    AlwaysKept(c.before);
    if HasSummed(s, tx) {
      SumHasDrifted(c.before, tx);
      OthersCommitElsewhere(s, c.m, tx);
      SumMoves(s, c.m, s.base.txs[tx].item);
    } else {
      JustSummed(s, c.m, tx);
    }
  }

  lemma JustSummed(s: State, m: Move, tx: Tx)
    requires Allowed(s, m) && !HasSummed(s, tx) && HasSummed(After(s, m), tx)
    ensures var b := After(s, m).base;
            ConfirmedSum(b.tables.reservations, b.txs[tx].item) == b.txs[tx].sum
  {
    assert m == Do(Sum(tx));
  }

  /**
   A commit overbooks exactly when, since it read its sum, saves have revived more of its item than
   cancellations have freed and its own comparison has left over.
   */
  lemma CommitOverbooksIff(c: Course, tx: Tx)
    requires Feasible(c) && Enabled(Reached(c).base, Commit(tx)) && Kept(Reached(c))
    ensures var p := Reached(c).base.txs[tx];
            Overbooks(Reached(c), Do(Commit(tx))) <==> Drift(c, tx) > p.row.quantity - p.sum - p.q
  {
    SumHasDrifted(c, tx);
    assert TxHolds(Reached(c).base, tx);
  }

  // ---------- A run in which it does ----------

  lemma Did(c: Course, m: Move)
    requires Feasible(c) && Allowed(Reached(c), m)
    ensures Feasible(Thereafter(c, m)) && Reached(Thereafter(c, m)) == After(Reached(c), m)
    ensures NoMoveOverbooks(c) && (Kept(Reached(c)) ==> !Overbooks(Reached(c), m)) ==>
              NoMoveOverbooks(Thereafter(c, m))
  {
  }

  /** The owner reads a reservation and cancels it, then a guest is admitted for the freed item. */
  ghost predicate ReadThenCancelled(s: State) {
    && s.base.tables == Act(OneItem(1, 1), Cancel("o", 0)) && s.base.locks == map[] && s.base.now == 0
    && s.base.txs == map[0 := Started("i", 1)] && s.held == map[7 := ReservationRead("o", 0, NewRow("i", 1))]
  }

  lemma OwnerCancelled() returns (c: Course)
    ensures Feasible(c) && NoMoveOverbooks(c) && OutsetTables(c) == OneItem(1, 1)
    ensures Reached(c) == State(System(0, Act(OneItem(1, 1), Cancel("o", 0)), map[], map[]),
                                map[7 := ReservationRead("o", 0, NewRow("i", 1))])
  {
    OneItemIsSound(1, 1);
    c := Outset(0, OneItem(1, 1));
    Did(c, ReadReservation(7, "o", 0));
    c := Thereafter(c, ReadReservation(7, "o", 0));
    Did(c, Do(Owner(Cancel("o", 0))));
    c := Thereafter(c, Do(Owner(Cancel("o", 0))));
  }

  lemma GuestFound() returns (c: Course)
    ensures Feasible(c) && NoMoveOverbooks(c) && OutsetTables(c) == OneItem(1, 1)
    ensures Reached(c) == State(System(0, Act(OneItem(1, 1), Cancel("o", 0)), map[], map[0 := LookedUp("l", "i", 1)]),
                                map[7 := ReservationRead("o", 0, NewRow("i", 1))])
  {
    c := OwnerCancelled();
    var s := Reached(c).base;
    assert s.tables.lists == OneItemFree().lists;
    var code := OneListFound(s);
    Did(c, Do(LookUp(0, code, Some("l"), "i", 1)));
    c := Thereafter(c, Do(LookUp(0, code, Some("l"), "i", 1)));
  }

  lemma GuestAdmitted() returns (c: Course)
    ensures Feasible(c) && NoMoveOverbooks(c) && OutsetTables(c) == OneItem(1, 1) && ReadThenCancelled(Reached(c))
  {
    c := GuestFound();
    FreedSum();
    Did(c, Do(ReadItem(0)));
    c := Thereafter(c, Do(ReadItem(0)));
  }

  /** The guest's transaction stands at this phase, and the owner's thank-you is still to be saved. */
  ghost predicate GuestAt(c: Course, p: Phase) {
    && Feasible(c) && NoMoveOverbooks(c) && OutsetTables(c) == OneItem(1, 1)
    && 0 in Reached(c).base.txs && Reached(c).base.txs[0] == p
    && Reached(c).base.tables == Act(OneItem(1, 1), Cancel("o", 0))
    && Reached(c).held == map[7 := ReservationRead("o", 0, NewRow("i", 1))]
  }

  lemma GuestLocked() returns (c: Course)
    ensures GuestAt(c, Locked("i", 1))
  {
    c := GuestAdmitted();
    FreedSum();
    Did(c, Do(LockRow(0)));
    c := Thereafter(c, Do(LockRow(0)));
  }

  lemma GuestSummed() returns (c: Course)
    ensures GuestAt(c, Summed("i", 1, GiftItem("l", 1, true, false, false), 0))
  {
    c := GuestLocked();
    FreedSum();
    Did(c, Do(Sum(0)));
    c := Thereafter(c, Do(Sum(0)));
  }

  lemma GuestInserted() returns (c: Course)
    ensures GuestAt(c, Inserted("i", 1, GiftItem("l", 1, true, false, false), 0))
  {
    c := GuestSummed();
    Did(c, Do(CompareAndInsert(0)));
    c := Thereafter(c, Do(CompareAndInsert(0)));
  }

  lemma FreedSum()
    ensures var t := Act(OneItem(1, 1), Cancel("o", 0));
            && t.reservations == [NewRow("i", 1).(status := Canceled, canceledBy := Some("o"))]
            && t.items == OneItem(1, 1).items && ConfirmedSum(t.reservations, "i") == 0
  {
    OneItemIsSound(1, 1);
    ActOnSum(OneItem(1, 1), Cancel("o", 0), "i");
  }

  ghost predicate OnlyCommitOverbooks(c: Course, tx: Tx) {
    && Feasible(c) && NoMoveOverbooks(c) && NotOverbooked(OutsetTables(c))
    && Enabled(Reached(c).base, Commit(tx)) && Kept(Reached(c)) && Overbooks(Reached(c), Do(Commit(tx)))
  }

  /**
   A cancelled reservation is revived, with room for it at that moment, between a transaction's
   comparison and its commit: no other move overbooks, and the commit does.
   */
  lemma RevivedBeforeCommit()
    ensures exists c, tx :: OnlyCommitOverbooks(c, tx)
  {
    var c := GuestInserted();
    var s, save := Reached(c), SaveThanks(7);
    FreedSum();
    AlwaysKept(c);
    Did(c, save);
    var d := Thereafter(c, save);
    AlwaysKept(d);
    SumMoves(s, save, "i");
    assert Moved(s, save, "i") == 1;
    assert ConfirmedSum(Reached(d).base.tables.reservations, "i") == 1;
    OneItemIsSound(1, 1);
    assert OnlyCommitOverbooks(d, 0);
  }
}
