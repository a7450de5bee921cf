/**
 What an owner's action does, told by the rows, the pages and the answers guests get before and
 after it: whom it heeds, what it writes and leaves alone, and what becomes of an item or a list
 that is withdrawn and brought back.
 */
module GiftEffects {
  import opened Wrappers
  import opened Strings
  import opened GiftTables
  import opened GiftPublic
  import opened GiftReservations

  // ---------- Whom an action heeds ----------

  /** The live list belongs to the user. */
  predicate Belongs(t: Tables, list: Id, owner: Id) {
    list in t.lists && t.lists[list].ownerId == owner && !t.lists[list].deleted
  }

  /** Rows come and go nowhere, and only rows under the actor's own live lists change. */
  lemma ActTouchesOwnRows(t: Tables, op: OwnerOp)
    requires WellFormed(t)
    ensures var u := Act(t, op);
            && t.lists.Keys == u.lists.Keys && t.items.Keys <= u.items.Keys && |u.reservations| == |t.reservations|
            && (forall l :: l in t.lists && u.lists[l] != t.lists[l] ==> Belongs(t, l, op.owner))
            && (forall i :: i in t.items && u.items[i] != t.items[i] ==>
                  Belongs(t, t.items[i].listId, op.owner) && !t.items[i].deleted)
            && (forall k :: 0 <= k < |t.reservations| && u.reservations[k] != t.reservations[k] ==>
                  var item := t.items[t.reservations[k].itemId]; Belongs(t, item.listId, op.owner) && !item.deleted)
            && (forall i :: i in u.items && i !in t.items ==> Belongs(t, u.items[i].listId, op.owner))
  {
  }

  /** One action writes one row. */
  lemma ActWritesOneRow(t: Tables, op: OwnerOp)
    ensures var u := Act(t, op);
            && (u.lists != t.lists ==> u.items == t.items && u.reservations == t.reservations)
            && (u.items != t.items ==> u.reservations == t.reservations)
            && (op.EditItem? || op.DropItem? || op.AddItem? ==>
                  forall i :: i in t.items && i != op.item ==> i in u.items && u.items[i] == t.items[i])
            && (op.EditList? || op.DropList? ==>
                  forall l :: l in t.lists && l != op.list ==> l in u.lists && u.lists[l] == t.lists[l])
            && (op.Cancel? || op.Thank? ==>
                  forall k :: 0 <= k < |t.reservations| && k != op.rid ==> u.reservations[k] == t.reservations[k])
  {
  }

  // ---------- What it writes ----------

  predicate Live(t: Tables, item: Id) { item in t.items && !t.items[item].deleted }

  /** A named field gets the value given, an unnamed one keeps its own. */
  predicate Named<T(==)>(given: Option<T>, before: T, after: T) {
    match given case None => after == before case Some(v) => after == v
  }

  lemma EditWrites(t: Tables, owner: Id, item: Id, quantity: Option<int>, active: Option<bool>, archived: Option<bool>)
    requires Live(t, item) && Belongs(t, t.items[item].listId, owner) && t.items[item].quantity > 0
    ensures var u := Act(t, EditItem(owner, item, quantity, active, archived));
            if quantity.Some? && quantity.value <= 0 then u == t
            else
              && item in u.items
              && Named(quantity, t.items[item].quantity, u.items[item].quantity)
              && Named(active, t.items[item].active, u.items[item].active)
              && Named(archived, t.items[item].archived, u.items[item].archived)
              && u.items[item].listId == t.items[item].listId && !u.items[item].deleted
  {
  }

  lemma DropAndAddWrite(t: Tables, owner: Id, list: Id, item: Id, initial: int)
    ensures Live(t, item) && Belongs(t, t.items[item].listId, owner) ==>
              item in Act(t, DropItem(owner, item)).items && Act(t, DropItem(owner, item)).items[item].deleted
    ensures item !in t.items && Belongs(t, list, owner) && initial > 0 ==>
              var u := Act(t, AddItem(owner, list, item, initial));
              && Live(u, item) && u.items[item].listId == list && u.items[item].quantity == initial
              && u.items[item].active && !u.items[item].archived
  {
  }

  /** Of a reservation the canceller and the state change, or the thanks, and nothing else. */
  lemma CancelAndThankWrite(t: Tables, owner: Id, rid: nat)
    requires rid < |t.reservations| && Live(t, t.reservations[rid].itemId)
    requires Belongs(t, t.items[t.reservations[rid].itemId].listId, owner)
    ensures var before := t.reservations[rid];
            var cancelled := Act(t, Cancel(owner, rid)).reservations[rid];
            var thanked := Act(t, Thank(owner, rid)).reservations[rid];
            && cancelled.status == Canceled && cancelled.canceledBy == Some(owner)
            && cancelled.thanked == before.thanked && cancelled.itemId == before.itemId
                && cancelled.quantity == before.quantity
            && thanked.thanked && thanked.status == before.status && thanked.canceledBy == before.canceledBy
            && thanked.itemId == before.itemId && thanked.quantity == before.quantity
  {
  }

  lemma ListEditWrites(t: Tables, owner: Id, list: Id, patch: ListPatch)
    requires Belongs(t, list, owner)
    ensures var l, r := t.lists[list], Act(t, EditList(owner, list, patch)).lists[list];
            && Named(patch.visible, l.isPublic, r.isPublic) && Named(patch.active, l.active, r.active)
            && (patch.expiresAt.Some? ==> r.expiresAt == patch.expiresAt && !r.neverExpires)
            && (patch.expiresAt.None? && patch.neverExpires == Some(true) ==> r.expiresAt == None && r.neverExpires)
            && (patch.expiresAt.None? && patch.neverExpires == Some(false) ==>
                  r.expiresAt == l.expiresAt && !r.neverExpires)
            && (patch.expiresAt.None? && patch.neverExpires == None ==>
                  r.expiresAt == l.expiresAt && r.neverExpires == l.neverExpires)
            && r.ownerId == l.ownerId && r.shareCode == l.shareCode && !r.deleted
    ensures Act(t, DropList(owner, list)).lists[list].deleted
  {
  }

  /** An accepted reservation is one more row: confirmed, not thanked, for that item and quantity. */
  lemma ReserveWrites(t: Tables, item: Id, q: int)
    ensures var u := Reserve(t, item, q);
            if Verdict(t, item, q) != Accepted then u == t
            else
              && u.lists == t.lists && u.items == t.items && |u.reservations| == |t.reservations| + 1
              && (forall k :: 0 <= k < |t.reservations| ==> u.reservations[k] == t.reservations[k])
              && var r := u.reservations[|t.reservations|];
                 r.itemId == item && r.quantity == q && r.status == Confirmed && !r.thanked && r.canceledBy == None
  {
  }

  /** What a page says of an item: its quantity and archive mark, and whether nothing of it is left. */
  lemma ShownTellsRow(t: Tables, list: Id, includeArchived: bool, out: seq<ItemResponse>, k: nat)
    requires Shows(t, list, includeArchived, out) && k < |out|
    ensures var r, row := out[k], t.items[out[k].id];
            && r.quantity == row.quantity && r.archived == row.archived
            && (r.isReserved <==> row.quantity <= ConfirmedSum(t.reservations, r.id))
            && r.remaining + ConfirmedSum(t.reservations, r.id) >= row.quantity
            && (r.isReserved || r.remaining + ConfirmedSum(t.reservations, r.id) == row.quantity)
            && (r.canReserve <==> !r.isReserved && !r.archived)
  {
    assert Describes(t, out[k]) && Listed(t, list, includeArchived, out[k].id);
  }

  // ---------- Withdrawn and brought back ----------

  /** What a guest gets is told by the pages: an answer of not found is given exactly for an item on no public page. */
  lemma NotFoundIffOnNoPage(t: Tables, item: Id, q: int)
    ensures Verdict(t, item, q) == NotFound <==> forall l :: !Listed(t, l, false, item)
  {
    if item in t.items { assert Listed(t, t.items[item].listId, false, item) <==> Verdict(t, item, q) != NotFound; }
  }

  /**
   For an item on a page: refused above what is left with how much that is, refused below one,
   accepted in between.
   */
  lemma ListedIsDecided(t: Tables, list: Id, item: Id, q: int)
    requires Listed(t, list, false, item)
    ensures var left := t.items[item].quantity - ConfirmedSum(t.reservations, item);
            && (Verdict(t, item, q) == Accepted <==> 1 <= q <= left)
            && (q > left ==> Verdict(t, item, q) == Insufficient(left))
            && (q <= left && q < 1 ==> Verdict(t, item, q) == Invalid)
  {
  }

  predicate Withdraws(op: OwnerOp, item: Id) {
    && (op.DropItem? || (op.EditItem? && (op.active == Some(false) || op.archived == Some(true))))
    && op.item == item
  }

  predicate OnSomePage(t: Tables, item: Id) { item in t.items && Listed(t, t.items[item].listId, false, item) }

  /**
   Dropped, deactivated or archived by its owner, an item is on no public page and no reservation of
   it is accepted.
   */
  lemma WithdrawnIsNotFound(t: Tables, op: OwnerOp, item: Id, q: int)
    requires Withdraws(op, item) && Live(t, item) && Belongs(t, t.items[item].listId, op.owner)
    requires op.EditItem? && op.quantity.Some? ==> op.quantity.value > 0
    requires t.items[item].quantity > 0
    ensures Verdict(Act(t, op), item, q) == NotFound
    ensures forall l :: !Listed(Act(t, op), l, false, item)
  {
  }

  /** Deactivating hides it from the owner's own page too; archiving alone does not. */
  lemma ArchivedStaysWithOwner(t: Tables, owner: Id, item: Id)
    requires Live(t, item) && Belongs(t, t.items[item].listId, owner) && t.items[item].quantity > 0
    ensures var list, archived := t.items[item].listId, Act(t, EditItem(owner, item, None, None, Some(true)));
            Listed(archived, list, true, item) <==> Listed(t, list, true, item)
    ensures var list, off := t.items[item].listId, Act(t, EditItem(owner, item, None, Some(false), None));
            !Listed(off, list, true, item) && !Listed(off, list, false, item)
  {
  }

  /** Brought back, an item is on its list's page again and every reservation of it is answered as before. */
  lemma BroughtBackIsAsBefore(t: Tables, owner: Id, item: Id, q: int)
    requires OnSomePage(t, item) && Belongs(t, t.items[item].listId, owner) && t.items[item].quantity > 0
    ensures var archived := Act(t, EditItem(owner, item, None, None, Some(true)));
            var back := Act(archived, EditItem(owner, item, None, None, Some(false)));
            && Verdict(archived, item, q) == NotFound
            && back.items == t.items && Verdict(back, item, q) == Verdict(t, item, q)
    ensures var off := Act(t, EditItem(owner, item, None, Some(false), None));
            var back := Act(off, EditItem(owner, item, None, Some(true), None));
            && Verdict(off, item, q) == NotFound
            && back.items == t.items && Verdict(back, item, q) == Verdict(t, item, q)
  {
    var archived := Act(t, EditItem(owner, item, None, None, Some(true)));
    var off := Act(t, EditItem(owner, item, None, Some(false), None));
    assert Act(archived, EditItem(owner, item, None, None, Some(false))).items[item] == t.items[item];
    assert Act(archived, EditItem(owner, item, None, None, Some(false))).items == t.items;
    assert Act(off, EditItem(owner, item, None, Some(true), None)).items[item] == t.items[item];
    assert Act(off, EditItem(owner, item, None, Some(true), None)).items == t.items;
  }

  /** A new item is on its list's page and no other, all of it free. */
  lemma AddedIsShown(t: Tables, owner: Id, list: Id, item: Id, initial: int, l: Id, q: int)
    requires WellFormed(t) && item !in t.items && Belongs(t, list, owner) && initial > 0
    ensures var u := Act(t, AddItem(owner, list, item, initial));
            (Listed(u, l, false, item) <==> l == list) && (Verdict(u, item, q) == Accepted <==> 1 <= q <= initial)
  {
    SumOfUnreferenced(t.reservations, item);
  }

  // ---------- A list shut and opened by its owner ----------

  predicate ShutBy(patch: ListPatch, now: int) {
    || patch.visible == Some(false) || patch.active == Some(false)
    || (patch.expiresAt.Some? && patch.expiresAt.value <= now)
  }

  /** Hidden, deactivated, expired or deleted by its owner, a list opens under no code. */
  lemma ShutListOpensNowhere(t: Tables, owner: Id, list: Id, patch: ListPatch, now: int, code: string)
    requires Belongs(t, list, owner)
    ensures ShutBy(patch, now) ==> !OpensTo(Act(t, EditList(owner, list, patch)).lists, now, code, list)
    ensures !OpensTo(Act(t, DropList(owner, list)).lists, now, code, list)
  {
  }

  /**
   Made visible and active, and never expiring or with an expiry to come, it opens under its own
   code, however typed.
   */
  lemma OpenedListOpens(t: Tables, owner: Id, list: Id, patch: ListPatch, now: int, code: string)
    requires Belongs(t, list, owner) && Upper(Trim(code)) == t.lists[list].shareCode
    requires patch.visible == Some(true) && patch.active == Some(true)
    requires (patch.expiresAt.Some? && now < patch.expiresAt.value)
          || (patch.expiresAt.None? && patch.neverExpires == Some(true))
    ensures OpensTo(Act(t, EditList(owner, list, patch)).lists, now, code, list)
  {
  }

  // ---------- Over runs: what the owner has last said of an item ----------

  datatype Standing = Unknown | Known(active: bool, archived: bool, dropped: bool)

  /** The owner's action on the item is one its rows allow. */
  predicate Heeded(t: Tables, op: OwnerOp, item: Id) {
    match op
    case EditItem(owner, i, quantity, _, _) =>
      && i == item && Live(t, item) && Belongs(t, t.items[item].listId, owner)
      && (if quantity.Some? then quantity.value else t.items[item].quantity) > 0
    case DropItem(owner, i) => i == item && Live(t, item) && Belongs(t, t.items[item].listId, owner)
    case AddItem(owner, list, i, initial) => i == item && item !in t.items && Belongs(t, list, owner) && initial > 0
    case _ => false
  }

  /** Read off the owner's actions: a new item is active, an edit says what it names, a drop is for good. */
  function StandingAt(run: Run, item: Id): Standing
    requires Possible(run)
  {
    match run
    case Init(_, t) =>
      if item in t.items then Known(t.items[item].active, t.items[item].archived, t.items[item].deleted) else Unknown
    case Then(before, step) =>
      var last := StandingAt(before, item);
      if !step.Owner? || !Heeded(At(before).tables, step.op, item) then last
      else match step.op
        case AddItem(_, _, _, _) => Known(true, false, false)
        case EditItem(_, _, _, active, archived) =>
          if last.Unknown? then last
          else Known(if active.Some? then active.value else last.active,
                     if archived.Some? then archived.value else last.archived, last.dropped)
        case DropItem(_, _) => if last.Unknown? then last else last.(dropped := true)
        case _ => last
  }

  lemma {:induction false} StandingIsRow(run: Run, item: Id)
    requires Possible(run)
    ensures var t, last := At(run).tables, StandingAt(run, item);
            && (item in t.items <==> last.Known?)
            && (item in t.items ==> last == Known(t.items[item].active, t.items[item].archived, t.items[item].deleted))
  {
    if run.Then? {
      StandingIsRow(run.before, item);
      if run.step.Owner? { OneActionStands(At(run.before).tables, run.step.op, item); }
    }
  }

  lemma OneActionStands(t: Tables, op: OwnerOp, item: Id)
    ensures var u := Act(t, op);
            && (item in t.items ==> item in u.items)
            && (!Heeded(t, op, item) ==>
                  (item in u.items <==> item in t.items)
                  && (item in t.items ==>
                        u.items[item].active == t.items[item].active && u.items[item].archived == t.items[item].archived
                        && u.items[item].deleted == t.items[item].deleted))
  {
  }

  /**
   A reservation whose transaction locks its item's row is answered not found at that moment exactly
   when there is no such item or its owner has dropped it, last made it inactive, or last archived it.
   */
  lemma LockFindsWhatStands(run: Run, tx: Tx)
    requires Possible(run) && Enabled(At(run), LockRow(tx))
    ensures var item := At(run).txs[tx].item;
            At(Then(run, LockRow(tx))).txs[tx] == Finished(NotFound)
            <==> !StandingAt(run, item).Known? || StandingAt(run, item).dropped
                 || !StandingAt(run, item).active || StandingAt(run, item).archived
  {
    StandingIsRow(run, At(run).txs[tx].item);
  }

  /** ... and an answer given stays given, whatever comes after. */
  lemma AnswersStay(run: Run, step: Step, tx: Tx)
    requires Possible(Then(run, step)) && tx in At(run).txs && At(run).txs[tx].Finished?
    ensures tx in At(Then(run, step)).txs && At(Then(run, step)).txs[tx] == At(run).txs[tx]
  {
  }

  /** Owner actions that write no item row never wait, and one that does waits for its own item's lock alone. */
  lemma WhoWaits(s: System, op: OwnerOp)
    ensures !op.EditItem? && !op.DropItem? ==> Enabled(s, Owner(op))
    ensures (op.EditItem? || op.DropItem?) && op.item !in s.locks ==> Enabled(s, Owner(op))
    ensures (op.EditItem? || op.DropItem?) && op.item in s.locks && Heeded(s.tables, op, op.item) ==>
              !Enabled(s, Owner(op))
  {
    if (op.EditItem? || op.DropItem?) && op.item in s.locks && Heeded(s.tables, op, op.item) {
      assert WritesItemOf(s.tables, op, op.item);
    }
  }

  // ---------- A code as a guest types it ----------

  lemma {:induction false} TrimLeftDrops(pre: string, s: string)
    requires forall k :: 0 <= k < |pre| ==> IsSpace(pre[k])
    requires s != "" && !IsSpace(s[0])
    ensures TrimLeft(pre + s) == s
  {
    if pre == "" {
      assert pre + s == s;
    } else {
      assert (pre + s)[1..] == pre[1..] + s;
      TrimLeftDrops(pre[1..], s);
    }
  }

  lemma {:induction false} TrimRightDrops(s: string, post: string)
    requires forall k :: 0 <= k < |post| ==> IsSpace(post[k])
    requires s != "" && !IsSpace(s[|s| - 1])
    ensures TrimRight(s + post) == s
  {
    if post == "" {
      assert s + post == s;
    } else {
      assert (s + post)[..|s + post| - 1] == s + post[..|post| - 1];
      TrimRightDrops(s, post[..|post| - 1]);
    }
  }

  /** In lower case and with blanks around it a code of capitals and digits opens what the code itself opens. */
  lemma TypedCodeOpens(lists: map<Id, GiftList>, now: int, pre: string, code: string, post: string, list: Id)
    requires code != "" && forall k :: 0 <= k < |code| ==> 'A' <= code[k] <= 'Z' || '0' <= code[k] <= '9'
    requires forall k :: 0 <= k < |pre| ==> IsSpace(pre[k])
    requires forall k :: 0 <= k < |post| ==> IsSpace(post[k])
    ensures OpensTo(lists, now, pre + Lower(code) + post, list) <==> OpensTo(lists, now, code, list)
  {
    CodeHasNoBlanks(code[0]);
    CodeHasNoBlanks(code[|code| - 1]);
    TrimDropsBlanks(pre, Lower(code), post);
    TrimKeepsTrimmed(code);
    UpperOfLower(code);
  }

  lemma CodeHasNoBlanks(c: char)
    requires 'A' <= c <= 'Z' || '0' <= c <= '9'
    ensures !IsSpace(c) && !IsSpace(LowerChar(c))
  {
  }

  lemma TrimDropsBlanks(pre: string, s: string, post: string)
    requires s != "" && !IsSpace(s[0]) && !IsSpace(s[|s| - 1])
    requires forall k :: 0 <= k < |pre| ==> IsSpace(pre[k])
    requires forall k :: 0 <= k < |post| ==> IsSpace(post[k])
    ensures Trim(pre + s + post) == s
  {
    assert pre + s + post == pre + (s + post);
    assert (s + post)[0] == s[0];
    TrimLeftDrops(pre, s + post);
    TrimRightDrops(s, post);
  }

  lemma UpperOfLower(s: string)
    ensures Upper(Lower(s)) == Upper(s)
  {
    forall k | 0 <= k < |s| ensures Upper(Lower(s))[k] == Upper(s)[k] { UpperCharOfLower(s[k]); }
  }

  lemma UpperCharOfLower(c: char)
    ensures UpperChar(LowerChar(c)) == UpperChar(c)
  {
    CasesMatch(c);
  }
}
