/**
 Guest reservations running side by side with each other and with owner actions.

 A reservation first looks its list up by the share code and reads the item, then runs its
 transaction. That is cut at its statements: the locking read of the item row, the sum of
 confirmed reservations, the comparison, the insert, the commit. It remembers the row
 and the sum it read, which may be stale by the time it uses them. An uncommitted
 insert is visible to nobody. An owner action that writes an item row waits for the
 row's lock; one that writes a reservation row does not.
 */
module GiftReservations {
  import opened Wrappers
  import opened GiftTables
  import opened GiftPublic
  import opened Strings

  type Tx = nat

  datatype Phase =
    | LookedUp(list: Id, item: Id, q: int)
    | TurnedAway                             // no open list, or no such item on it: no transaction
    | Started(item: Id, q: int)
    | Locked(item: Id, q: int)
    | Summed(item: Id, q: int, row: GiftItem, sum: int)
    | Inserted(item: Id, q: int, row: GiftItem, sum: int)
    | Finished(outcome: Outcome)
    | RolledBack

  datatype System = System(now: int, tables: Tables, locks: map<Id, Tx>, txs: map<Tx, Phase>)

  datatype Step =
    | LookUp(tx: Tx, code: string, found: Option<Id>, item: Id, q: int)
    | ReadItem(tx: Tx)
    | LockRow(tx: Tx)
    | Sum(tx: Tx)
    | CompareAndInsert(tx: Tx)
    | Commit(tx: Tx)
    | Abort(tx: Tx)      // the connection or the server fails; nothing was committed
    | Owner(op: OwnerOp)
    | Tick(seconds: nat)

  predicate WritesItemOf(t: Tables, op: OwnerOp, item: Id) {
    Effective(t, op) && (op.EditItem? || op.DropItem?) && op.item == item
  }

  /** The look-up finds an open list under the code if there is one. */
  predicate Finds(s: System, code: string, found: Option<Id>) {
    if found.Some? then OpensTo(s.tables.lists, s.now, code, found.value)
    else forall l :: l in s.tables.lists ==> !OpensTo(s.tables.lists, s.now, code, l)
  }

  predicate Enabled(s: System, step: Step) {
    match step
    case LookUp(tx, code, found, _, _) => tx !in s.txs && Finds(s, code, found)
    case ReadItem(tx) => tx in s.txs && s.txs[tx].LookedUp?
    case LockRow(tx) =>
      && tx in s.txs && s.txs[tx].Started?
      && (Reservable(s.tables, s.txs[tx].item) ==> s.txs[tx].item !in s.locks)
    case Sum(tx) => tx in s.txs && s.txs[tx].Locked? && s.txs[tx].item in s.tables.items
    case CompareAndInsert(tx) => tx in s.txs && s.txs[tx].Summed?
    case Commit(tx) => tx in s.txs && s.txs[tx].Inserted?
    case Abort(tx) => tx in s.txs && !s.txs[tx].Finished? && !s.txs[tx].RolledBack? && !s.txs[tx].TurnedAway?
    case Owner(op) => forall i :: i in s.locks ==> !WritesItemOf(s.tables, op, i)
    case Tick(_) => true
  }

  function Release(locks: map<Id, Tx>, tx: Tx): map<Id, Tx> {
    map i | i in locks && locks[i] != tx :: locks[i]
  }

  function Next(s: System, step: Step): System
    requires Enabled(s, step)
  {
    match step
    case LookUp(tx, code, found, item, q) =>
      s.(txs := s.txs[tx := if found.Some? then LookedUp(found.value, item, q) else TurnedAway])
    case ReadItem(tx) =>
      var LookedUp(list, item, q) := s.txs[tx];
      s.(txs := s.txs[tx := if Listed(s.tables, list, false, item) then Started(item, q) else TurnedAway])
    case LockRow(tx) =>
      var Started(item, q) := s.txs[tx];
      if Reservable(s.tables, item)
      then s.(locks := s.locks[item := tx], txs := s.txs[tx := Locked(item, q)])
      else s.(txs := s.txs[tx := Finished(NotFound)])
    case Sum(tx) =>
      var Locked(item, q) := s.txs[tx];
      s.(txs := s.txs[tx := Summed(item, q, s.tables.items[item], ConfirmedSum(s.tables.reservations, item))])
    case CompareAndInsert(tx) =>
      var Summed(item, q, row, sum) := s.txs[tx];
      if Decide(row, sum, q) == Accepted
      then s.(txs := s.txs[tx := Inserted(item, q, row, sum)])
      else s.(txs := s.txs[tx := Finished(Decide(row, sum, q))], locks := Release(s.locks, tx))
    case Commit(tx) =>
      var Inserted(item, q, _, _) := s.txs[tx];
      s.(tables := s.tables.(reservations := s.tables.reservations + [NewRow(item, q)]),
         locks := Release(s.locks, tx), txs := s.txs[tx := Finished(Accepted)])
    case Abort(tx) => s.(txs := s.txs[tx := RolledBack], locks := Release(s.locks, tx))
    case Owner(op) => s.(tables := Act(s.tables, op))
    case Tick(seconds) => s.(now := s.now + seconds)
  }

  // ---------- Runs ----------

  datatype Run = Init(now: int, tables: Tables) | Then(before: Run, step: Step)

  predicate Possible(run: Run)
    decreases run, 0
  {
    match run
    case Init(_, t) => WellFormed(t)
    case Then(before, step) => Possible(before) && Enabled(At(before), step)
  }

  function At(run: Run): System
    requires Possible(run)
    decreases run, 1
  {
    match run
    case Init(now, t) => System(now, t, map[], map[])
    case Then(before, step) => Next(At(before), step)
  }

  // ---------- What every step keeps ----------

  predicate Holds(s: System, tx: Tx, item: Id) { item in s.locks && s.locks[item] == tx }

  /** While a transaction holds its item the row is the one it read. */
  predicate TxHolds(s: System, tx: Tx)
    requires tx in s.txs
  {
    match s.txs[tx]
    case Locked(item, q) => Holds(s, tx, item) && Reservable(s.tables, item)
    case Summed(item, q, row, sum) =>
      Holds(s, tx, item) && Reservable(s.tables, item) && s.tables.items[item] == row
    case Inserted(item, q, row, sum) =>
      && Holds(s, tx, item) && Reservable(s.tables, item) && s.tables.items[item] == row
      && Decide(row, sum, q) == Accepted
    case _ => true
  }

  /** ... and the true sum has not risen above the one it read. */
  predicate SumSound(s: System, tx: Tx)
    requires tx in s.txs
  {
    var p := s.txs[tx];
    p.Summed? || p.Inserted? ==> ConfirmedSum(s.tables.reservations, p.item) <= p.sum
  }

  predicate Owned(s: System, i: Id)
    requires i in s.locks
  {
    && s.locks[i] in s.txs
    && var p := s.txs[s.locks[i]];
       (p.Locked? || p.Summed? || p.Inserted?) && p.item == i
  }

  /** What holds of rows and locks, whatever happens to the sums. */
  predicate Steady(s: System) {
    && WellFormed(s.tables)
    && (forall tx :: tx in s.txs ==> TxHolds(s, tx))
    && (forall i :: i in s.locks ==> Owned(s, i))
  }

  predicate Sound(s: System) {
    Steady(s) && forall tx :: tx in s.txs ==> SumSound(s, tx)
  }

  predicate InTransaction(p: Phase) { p.Locked? || p.Summed? || p.Inserted? }

  /** One transaction's own step. */
  predicate StepOf(step: Step, tx: Tx) {
    (step.LockRow? || step.Sum? || step.CompareAndInsert? || step.Commit? || step.Abort?) && step.tx == tx
  }

  lemma OwnStepHolds(s: System, step: Step, tx: Tx)
    requires Steady(s) && Enabled(s, step) && StepOf(step, tx)
    ensures TxHolds(Next(s, step), tx)
  {
    assert TxHolds(s, tx);
  }

  lemma OtherStepHolds(s: System, step: Step, tx: Tx)
    requires Steady(s) && Enabled(s, step) && !StepOf(step, tx) && tx in Next(s, step).txs
    ensures TxHolds(Next(s, step), tx)
  {
    if tx in s.txs {
      assert TxHolds(s, tx);
      if step.Owner? && InTransaction(s.txs[tx]) { assert !WritesItemOf(s.tables, step.op, s.txs[tx].item); }
    }
  }

  lemma StepKeepsOwned(s: System, step: Step, i: Id)
    requires Steady(s) && Enabled(s, step) && i in Next(s, step).locks
    ensures Owned(Next(s, step), i)
  {
    if i in s.locks { assert Owned(s, i); }
  }

  lemma StepKeepsWellFormed(s: System, step: Step)
    requires Steady(s) && Enabled(s, step)
    ensures WellFormed(Next(s, step).tables)
  {
    if step.Owner? { ActKeepsWellFormed(s.tables, step.op); }
    if step.Commit? { assert TxHolds(s, step.tx); }
  }

  lemma StepKeepsSteady(s: System, step: Step)
    requires Steady(s) && Enabled(s, step)
    ensures Steady(Next(s, step))
  {
    var n := Next(s, step);
    StepKeepsWellFormed(s, step);
    forall tx | tx in n.txs ensures TxHolds(n, tx) {
      if StepOf(step, tx) { OwnStepHolds(s, step, tx); } else { OtherStepHolds(s, step, tx); }
    }
    forall i | i in n.locks ensures Owned(n, i) { StepKeepsOwned(s, step, i); }
  }

  /** A commit adds to the sum of no item that another transaction holds. */
  lemma CommitKeepsOtherSums(s: System, tx: Tx, other: Tx)
    requires Steady(s) && Enabled(s, Commit(tx)) && other in s.txs && other != tx && InTransaction(s.txs[other])
    ensures var item := s.txs[other].item;
            ConfirmedSum(Next(s, Commit(tx)).tables.reservations, item) == ConfirmedSum(s.tables.reservations, item)
  {
    assert TxHolds(s, tx) && TxHolds(s, other);
    assert s.txs[other].item != s.txs[tx].item;
    SumAfterInsert(s.tables.reservations, NewRow(s.txs[tx].item, s.txs[tx].q), s.txs[other].item);
  }

  lemma StepKeepsSum(s: System, step: Step, tx: Tx)
    requires Sound(s) && Enabled(s, step) && tx in Next(s, step).txs
    ensures SumSound(Next(s, step), tx)
  {
    if tx in s.txs {
      assert SumSound(s, tx);
      if step.Commit? && step.tx != tx && InTransaction(s.txs[tx]) {
        CommitKeepsOtherSums(s, step.tx, tx);
      } else if step.Owner? && InTransaction(s.txs[tx]) {
        ActOnSum(s.tables, step.op, s.txs[tx].item);
      }
    }
  }

  lemma StepKeepsSound(s: System, step: Step)
    requires Sound(s) && Enabled(s, step)
    ensures Sound(Next(s, step))
  {
    StepKeepsSteady(s, step);
    forall tx | tx in Next(s, step).txs ensures SumSound(Next(s, step), tx) { StepKeepsSum(s, step, tx); }
  }

  lemma {:induction false} EveryStateSound(run: Run)
    requires Possible(run)
    ensures Sound(At(run))
  {
    if run.Then? {
      EveryStateSound(run.before);
      StepKeepsSound(At(run.before), run.step);
    }
  }

  // ---------- Refinement of one atomic reserve ----------

  datatype Event = Reserved(tx: Tx, item: Id, q: int, outcome: Outcome) | Acted(op: OwnerOp)

  /**
   The atomic operation that takes effect at a step: an acceptance at the commit, any other
   decision on the quantity at the sum that fixes it, a missing item at the locking read.
   */
  function Effect(s: System, step: Step): seq<Event>
    requires Enabled(s, step)
  {
    match step
    case LockRow(tx) =>
      if Reservable(s.tables, s.txs[tx].item) then [] else [Reserved(tx, s.txs[tx].item, s.txs[tx].q, NotFound)]
    case Sum(tx) =>
      var Locked(item, q) := s.txs[tx];
      var o := Decide(s.tables.items[item], ConfirmedSum(s.tables.reservations, item), q);
      if o == Accepted then [] else [Reserved(tx, item, q, o)]
    case Commit(tx) => [Reserved(tx, s.txs[tx].item, s.txs[tx].q, Accepted)]
    case Owner(op) => [Acted(op)]
    case _ => []
  }

  function History(run: Run): seq<Event>
    requires Possible(run)
  {
    match run
    case Init(_, _) => []
    case Then(before, step) => History(before) + Effect(At(before), step)
  }

  function Replay(t: Tables, events: seq<Event>): Tables {
    if events == [] then t
    else
      var before := Replay(t, events[..|events| - 1]);
      match events[|events| - 1]
      case Reserved(_, item, q, _) => Reserve(before, item, q)
      case Acted(op) => Act(before, op)
  }

  /** Every reservation in the sequential history got the answer the atomic operation gives at that point. */
  predicate Truthful(t: Tables, events: seq<Event>) {
    events == [] || (
      var front := events[..|events| - 1];
      && Truthful(t, front)
      && match events[|events| - 1]
         case Reserved(_, item, q, o) => o == Verdict(Replay(t, front), item, q)
         case Acted(_) => true)
  }

  /** The answers the sequential history holds for one transaction. */
  function Answers(events: seq<Event>, tx: Tx): seq<Outcome> {
    if events == [] then []
    else
      var e := events[|events| - 1];
      Answers(events[..|events| - 1], tx) + if e.Reserved? && e.tx == tx then [e.outcome] else []
  }

  function StartTables(run: Run): Tables {
    match run case Init(_, t) => t case Then(before, _) => StartTables(before)
  }

  /** The answer, if any, that the history must already hold for a transaction in this phase. */
  predicate Answered(s: System, tx: Tx, answers: seq<Outcome>) {
    if tx !in s.txs then answers == []
    else match s.txs[tx]
      case Summed(_, q, row, sum) => answers == if Decide(row, sum, q) == Accepted then [] else [Decide(row, sum, q)]
      case Finished(o) => answers == [o]
      case RolledBack => |answers| <= 1 && Accepted !in answers
      case _ => answers == []
  }

  lemma AnswersAfter(events: seq<Event>, e: Event, tx: Tx)
    ensures Answers(events + [e], tx) == Answers(events, tx) + if e.Reserved? && e.tx == tx then [e.outcome] else []
    ensures forall t :: Truthful(t, events + [e]) <==>
              (Truthful(t, events) && (e.Reserved? ==> e.outcome == Verdict(Replay(t, events), e.item, e.q)))
    ensures forall t :: Replay(t, events + [e])
              == if e.Reserved? then Reserve(Replay(t, events), e.item, e.q) else Act(Replay(t, events), e.op)
  {
    assert (events + [e])[..|events|] == events;
  }

  /** The comparison made with a stale sum is still right when the transaction commits. */
  lemma CommitMeetsVerdict(s: System, tx: Tx)
    requires Sound(s) && Enabled(s, Commit(tx))
    ensures Verdict(s.tables, s.txs[tx].item, s.txs[tx].q) == Accepted
    ensures Next(s, Commit(tx)).tables == Reserve(s.tables, s.txs[tx].item, s.txs[tx].q)
  {
    assert TxHolds(s, tx) && SumSound(s, tx);
  }

  lemma StepAnswers(s: System, step: Step, tx: Tx, answers: seq<Outcome>)
    requires Sound(s) && Enabled(s, step) && Answered(s, tx, answers)
    ensures var e := Effect(s, step);
            Answered(Next(s, step), tx,
                     answers + if e != [] && e[0].Reserved? && e[0].tx == tx then [e[0].outcome] else [])
  {
    assert answers + [] == answers;
    if StepOf(step, tx) {
      OwnStepAnswers(s, step, tx, answers);
    } else {
      OtherStepAnswers(s, step, tx, answers);
    }
  }

  lemma OtherStepAnswers(s: System, step: Step, tx: Tx, answers: seq<Outcome>)
    requires Enabled(s, step) && Answered(s, tx, answers) && !StepOf(step, tx)
    ensures Answered(Next(s, step), tx, answers)
    ensures Effect(s, step) != [] && Effect(s, step)[0].Reserved? ==> Effect(s, step)[0].tx != tx
  {
  }

  lemma OwnStepAnswers(s: System, step: Step, tx: Tx, answers: seq<Outcome>)
    requires Sound(s) && Enabled(s, step) && Answered(s, tx, answers) && StepOf(step, tx)
    ensures var e := Effect(s, step);
            Answered(Next(s, step), tx, answers + if e != [] then [e[0].outcome] else [])
    ensures Effect(s, step) != [] ==> Effect(s, step)[0].Reserved? && Effect(s, step)[0].tx == tx
  {
    assert TxHolds(s, tx) && answers + [] == answers;
    assert forall o: Outcome :: [] + [o] == [o];
  }

  lemma OneEvent(t: Tables, e: Event)
    ensures Replay(t, [e]) == if e.Reserved? then Reserve(t, e.item, e.q) else Act(t, e.op)
    ensures Truthful(t, [e]) <==> (e.Reserved? ==> e.outcome == Verdict(t, e.item, e.q))
  {
    AnswersAfter([], e, 0);
    assert [] + [e] == [e];
  }

  lemma StepMatchesEffect(s: System, step: Step)
    requires Sound(s) && Enabled(s, step)
    ensures var e := Effect(s, step);
            if e == [] then Next(s, step).tables == s.tables
            else
              && e == [e[0]]
              && Next(s, step).tables == Replay(s.tables, e)
              && Truthful(s.tables, e)
  {
    var e := Effect(s, step);
    if step.Commit? { CommitMeetsVerdict(s, step.tx); }
    if step.Sum? { assert TxHolds(s, step.tx); }
    if e != [] { OneEvent(s.tables, e[0]); }
  }

  /**
   Every interleaving is equivalent to a sequential history of atomic reservations and owner
   actions: it leaves the same tables, each answer in it is the atomic operation's own,
   a finished transaction is in it exactly once with the answer its caller got, an
   unstarted one is not in it, and a rolled-back one changed nothing.
   */
  lemma {:induction false} RunsAreSequential(run: Run)
    requires Possible(run)
    ensures Truthful(StartTables(run), History(run))
    ensures Replay(StartTables(run), History(run)) == At(run).tables
    ensures forall tx :: Answered(At(run), tx, Answers(History(run), tx))
  {
    if run.Then? {
      var s, h, e := At(run.before), History(run.before), Effect(At(run.before), run.step);
      RunsAreSequential(run.before);
      EveryStateSound(run.before);
      StepMatchesEffect(s, run.step);
      if e == [] {
        assert h + e == h;
      } else {
        AnswersAfter(h, e[0], 0);
        AnswersAfter([], e[0], 0);
        assert [] + [e[0]] == e && h + [e[0]] == h + e;
      }
      forall tx ensures Answered(At(run), tx, Answers(History(run), tx)) {
        StepAnswers(s, run.step, tx, Answers(h, tx));
        if e != [] { AnswersAfter(h, e[0], tx); assert h + [e[0]] == h + e; }
        else { assert Answers(h, tx) + [] == Answers(h, tx); }
      }
    }
  }

  // ---------- Reservations never exceed availability ----------

  predicate NeverOverbooked(run: Run)
    requires Possible(run)
  {
    NotOverbooked(At(run).tables) && (run.Then? ==> NeverOverbooked(run.before))
  }

  predicate NeverUndercut(run: Run)
    requires Possible(run)
  {
    run.Then? ==>
      && NeverUndercut(run.before)
      && (run.step.Owner? ==> !Undercuts(At(run.before).tables, run.step.op))
  }

  /**
   Whatever the interleaving, no item is ever promised beyond its quantity, exactly when
   no owner edit stores a quantity below what is confirmed at that moment.
   */
  lemma {:induction false} NeverOverbookedIffNeverUndercut(run: Run)
    requires Possible(run) && NotOverbooked(StartTables(run))
    ensures NeverOverbooked(run) <==> NeverUndercut(run)
  {
    if run.Then? {
      var s := At(run.before);
      NeverOverbookedIffNeverUndercut(run.before);
      EveryStateSound(run.before);
      if NeverOverbooked(run.before) { StepOverbooksIff(s, run.step); }
    }
  }

  lemma StepOverbooksIff(s: System, step: Step)
    requires Sound(s) && Enabled(s, step) && NotOverbooked(s.tables)
    ensures NotOverbooked(Next(s, step).tables) <==> !(step.Owner? && Undercuts(s.tables, step.op))
  {
    if step.Commit? {
      CommitMeetsVerdict(s, step.tx);
      ReserveKeepsSound(s.tables, s.txs[step.tx].item, s.txs[step.tx].q);
    } else if step.Owner? {
      ActOverbooksIffUndercuts(s.tables, step.op);
    } else {
      assert Next(s, step).tables == s.tables;
    }
  }

  function OneItem(quantity: int, reserved: int): Tables {
    Tables(map["l" := GiftList("o", "CODE", true, true, true, None, false)],
           map["i" := GiftItem("l", quantity, true, false, false)], [NewRow("i", reserved)])
  }

  lemma OneItemIsSound(quantity: int, reserved: int)
    requires 0 < reserved <= quantity
    ensures var t := OneItem(quantity, reserved);
            WellFormed(t) && NotOverbooked(t) && ConfirmedSum(t.reservations, "i") == reserved
  {
    SumAfterInsert([], NewRow("i", reserved), "i");
    assert [] + [NewRow("i", reserved)] == [NewRow("i", reserved)];
  }

  /** Nothing in an edit prevents that: quantity 2, two of them reserved, quantity set to 1. */
  lemma UndercutHappens()
    ensures exists run :: Possible(run) && NotOverbooked(StartTables(run)) && !NotOverbooked(At(run).tables)
  {
    var t := OneItem(2, 2);
    OneItemIsSound(2, 2);
    var op := EditItem("o", "i", Some(1), None, None);
    var run := Then(Init(0, t), Owner(op));
    assert Undercuts(t, op);
    ActOverbooksIffUndercuts(t, op);
    assert Possible(run) && At(run).tables == Act(t, op);
  }

  // ---------- Is the list still open when the reservation is committed? ----------

  predicate IsOpen(s: System, list: Id) {
    list in s.tables.lists && !s.tables.lists[list].deleted && Open(s.tables.lists[list], s.now)
  }

  /** The list a running reservation was admitted to. */
  function ListOf(s: System, tx: Tx): Option<Id> {
    if tx !in s.txs then None
    else match s.txs[tx]
      case LookedUp(list, _, _) => Some(list)
      case TurnedAway => None
      case Finished(_) => None
      case RolledBack => None
      case p => if p.item in s.tables.items then Some(s.tables.items[p.item].listId) else None
  }

  /** The step shuts an open list: an edit, a deletion or the passing of its expiry. Read off the state before it. */
  predicate Shuts(s: System, step: Step, list: Id) {
    IsOpen(s, list)
    && match step
       case Owner(EditList(owner, l, patch)) =>
         l == list && OwnsList(s.tables.lists, owner, l) && !Open(PatchedList(s.tables.lists[l], patch), s.now)
       case Owner(DropList(owner, l)) => l == list && OwnsList(s.tables.lists, owner, l)
       case Tick(seconds) => !Open(s.tables.lists[list], s.now + seconds)
       case _ => false
  }

  predicate Reopens(s: System, step: Step, list: Id) {
    !IsOpen(s, list)
    && match step
       case Owner(EditList(owner, l, patch)) =>
         l == list && OwnsList(s.tables.lists, owner, l) && Open(PatchedList(s.tables.lists[l], patch), s.now)
       case _ => false
  }

  lemma OpenChangesIff(s: System, step: Step, list: Id)
    requires Enabled(s, step)
    ensures IsOpen(Next(s, step), list) != IsOpen(s, list) <==> Shuts(s, step, list) || Reopens(s, step, list)
  {
  }

  /** How often the list of a reservation was shut, and opened again, since it was looked up. */
  function Shuttings(run: Run, tx: Tx): nat
    requires Possible(run)
  {
    match run
    case Init(_, _) => 0
    case Then(before, step) =>
      var s := At(before);
      Shuttings(before, tx) + if ListOf(s, tx).Some? && Shuts(s, step, ListOf(s, tx).value) then 1 else 0
  }

  function Reopenings(run: Run, tx: Tx): nat
    requires Possible(run)
  {
    match run
    case Init(_, _) => 0
    case Then(before, step) =>
      var s := At(before);
      Reopenings(before, tx) + if ListOf(s, tx).Some? && Reopens(s, step, ListOf(s, tx).value) then 1 else 0
  }

  /** Past the look-ups the item exists, and so its list is known. */
  predicate ItemKnown(s: System, tx: Tx) {
    tx in s.txs ==>
      match s.txs[tx]
      case LookedUp(_, _, _) => true
      case TurnedAway => true
      case Finished(_) => true
      case RolledBack => true
      case p => p.item in s.tables.items
  }

  predicate Counted(s: System, tx: Tx, shut: nat, reopened: nat) {
    && ItemKnown(s, tx)
    && (tx !in s.txs ==> shut == 0 && reopened == 0)
    && (ListOf(s, tx).Some? ==> shut == reopened + if IsOpen(s, ListOf(s, tx).value) then 0 else 1)
  }

  /** An item never leaves the table or its list. */
  lemma ItemsStay(s: System, step: Step, item: Id)
    requires Enabled(s, step) && item in s.tables.items
    ensures item in Next(s, step).tables.items
    ensures Next(s, step).tables.items[item].listId == s.tables.items[item].listId
  {
  }

  lemma ListStays(s: System, step: Step, tx: Tx)
    requires Enabled(s, step) && ItemKnown(s, tx)
    ensures ItemKnown(Next(s, step), tx)
    ensures ListOf(Next(s, step), tx).Some? && tx in s.txs ==> ListOf(Next(s, step), tx) == ListOf(s, tx)
  {
    if tx in s.txs {
      match s.txs[tx]
      case LookedUp(_, item, _) => if item in s.tables.items { ItemsStay(s, step, item); }
      case TurnedAway =>
      case Finished(_) =>
      case RolledBack =>
      case p => ItemsStay(s, step, p.item);
    }
  }

  lemma {:induction false} ListsAreCounted(run: Run, tx: Tx)
    requires Possible(run)
    ensures Counted(At(run), tx, Shuttings(run, tx), Reopenings(run, tx))
  {
    if run.Then? {
      var s := At(run.before);
      ListsAreCounted(run.before, tx);
      ListStays(s, run.step, tx);
      if ListOf(s, tx).Some? { OpenChangesIff(s, run.step, ListOf(s, tx).value); }
    }
  }

  /**
   When a reservation is committed, the list it was admitted to is still open exactly when every
   step that shut it since the look-up has been undone by an edit that opened it again; so it is
   if no edit, deletion or expiry has shut it.
   */
  lemma OpenAtCommitIff(run: Run, tx: Tx)
    requires Possible(run) && Enabled(At(run), Commit(tx))
    ensures ListOf(At(run), tx).Some?
    ensures IsOpen(At(run), ListOf(At(run), tx).value) <==> Shuttings(run, tx) == Reopenings(run, tx)
  {
    ListsAreCounted(run, tx);
  }

  lemma Took(run: Run, step: Step)
    requires Possible(run) && Enabled(At(run), step)
    ensures Possible(Then(run, step)) && At(Then(run, step)) == Next(At(run), step)
  {
  }

  ghost predicate CommitsOnShutList(run: Run, tx: Tx) {
    Possible(run) && Enabled(At(run), Commit(tx))
    && ListOf(At(run), tx).Some? && !IsOpen(At(run), ListOf(At(run), tx).value)
  }

  function OneItemFree(): Tables {
    Tables(map["l" := GiftList("o", "CODE", true, true, true, None, false)],
           map["i" := GiftItem("l", 1, true, false, false)], [])
  }

  lemma AdmittedToOne() returns (run: Run)
    ensures Possible(run) && At(run) == System(0, OneItemFree(), map[], map[0 := Started("i", 1)])
  {
    run := Init(0, OneItemFree());
    var s := At(run);
    var code := OneListFound(s);
    Took(run, LookUp(0, code, Some("l"), "i", 1));
    run := Then(run, LookUp(0, code, Some("l"), "i", 1));
    Took(run, ReadItem(0));
    run := Then(run, ReadItem(0));
    assert At(run).txs == map[0 := Started("i", 1)];
  }

  lemma OneListFound(s: System) returns (code: string)
    requires s.tables.lists == OneItemFree().lists
    ensures Finds(s, code, Some("l"))
  {
    code := "CODE";
    CodeIsNormal();
  }

  /** Alone, a reservation of a free item gets as far as its commit. */
  lemma RunsToCommit(before: Run, tx: Tx) returns (run: Run)
    requires Possible(before)
    requires var s := At(before);
             && s.locks == map[] && tx in s.txs && s.txs[tx] == Started("i", 1)
             && Reservable(s.tables, "i") && s.tables.items["i"].quantity == 1
             && ConfirmedSum(s.tables.reservations, "i") == 0
    ensures Possible(run) && Enabled(At(run), Commit(tx)) && At(run).tables == At(before).tables
    ensures At(run).txs[tx].item == "i" && At(run).now == At(before).now
  {
    Took(before, LockRow(tx));
    run := Then(before, LockRow(tx));
    Took(run, Sum(tx));
    run := Then(run, Sum(tx));
    Took(run, CompareAndInsert(tx));
    run := Then(run, CompareAndInsert(tx));
  }

  /** A run in which the owner deletes the list after the look-up and the reservation is committed all the same. */
  lemma ShutListStillReserves()
    ensures exists run, tx :: CommitsOnShutList(run, tx)
  {
    var admitted := AdmittedToOne();
    var drop := Owner(DropList("o", "l"));
    Took(admitted, drop);
    var run := RunsToCommit(Then(admitted, drop), 0);
    assert At(run).tables.lists["l"].deleted && At(run).tables.items["i"].listId == "l";
    assert CommitsOnShutList(run, 0);
  }

  lemma CodeIsNormal()
    ensures Upper(Trim("CODE")) == "CODE"
  {
    TrimKeepsTrimmed("CODE");
    assert Upper("CODE") == "CODE";
  }

  // ---------- A thank-you saved from an old read ----------

  /** Saving a whole row read earlier, as the thank-you action does, without rereading it. */
  function SaveStale(t: Tables, rid: nat, read: Reservation): Tables
    requires rid < |t.reservations|
  {
    t.(reservations := t.reservations[rid := read.(thanked := true)])
  }

  /**
   If the row was cancelled since it was read, the save revives it: the sum grows back by the
   row's quantity, so the item is overbooked exactly when that quantity is no longer free.
   If the row still has the status that was read, the save moves no sum.
   */
  lemma StaleThanksRevives(t: Tables, rid: nat, read: Reservation)
    requires WellFormed(t) && NotOverbooked(t) && rid < |t.reservations|
    requires read.itemId == t.reservations[rid].itemId && read.quantity == t.reservations[rid].quantity
    requires read.status == Canceled ==> t.reservations[rid].status == Canceled
    ensures NotOverbooked(SaveStale(t, rid, read)) <==>
              (read.status == t.reservations[rid].status
               || read.quantity <= t.items[read.itemId].quantity - ConfirmedSum(t.reservations, read.itemId))
  {
    var u := SaveStale(t, rid, read);
    forall i | i in t.items
      ensures ConfirmedSum(u.reservations, i)
           == ConfirmedSum(t.reservations, i) - Share(t.reservations[rid], i) + Share(read, i)
    {
      SumAfterSave(t.reservations, rid, u.reservations[rid], i);
    }
  }

  /** A run in which that happens: cancel, a second guest takes the item, the old read is saved. */
  lemma StaleThanksOverbooks()
    ensures exists t, rid: nat, read ::
      && WellFormed(t) && NotOverbooked(t) && rid < |t.reservations| && read == t.reservations[rid]
      && var freed := Act(t, Cancel("o", rid));
         var taken := Reserve(freed, read.itemId, read.quantity);
         && OwnsReservation(t, "o", rid) && Verdict(freed, read.itemId, read.quantity) == Accepted
         && NotOverbooked(taken) && !NotOverbooked(SaveStale(taken, rid, read))
  {
    var t, read := OneItem(1, 1), NewRow("i", 1);
    OneItemIsSound(1, 1);
    var cancel := Cancel("o", 0);
    var freed := Act(t, cancel);
    ActOnSum(t, cancel, "i");
    ActKeepsWellFormed(t, cancel);
    ActOverbooksIffUndercuts(t, cancel);
    assert ConfirmedSum(freed.reservations, "i") == 0 && |freed.reservations| == 1 && freed.items == t.items;
    var taken := Reserve(freed, "i", 1);
    ReserveKeepsSound(freed, "i", 1);
    SumAfterInsert(freed.reservations, read, "i");
    assert Verdict(freed, "i", 1) == Accepted && WellFormed(taken) && NotOverbooked(taken);
    assert taken.reservations[0] == freed.reservations[0] == read.(status := Canceled, canceledBy := Some("o"));
    StaleThanksRevives(taken, 0, read);
  }

  // ---------- An edit saved from an old read ----------

  /** Saving an item row read earlier, patched, as the edit does, without rereading it. */
  function SaveStaleItem(
    t: Tables, item: Id, read: GiftItem, quantity: Option<int>, active: Option<bool>, archived: Option<bool>): Tables
  {
    t.(items := t.items[item := Edited(read, quantity, active, archived)])
  }

  /**
   It overbooks exactly when the quantity it stores, which is the one read if the edit names none,
   is below what is confirmed by then.
   */
  lemma StaleEditOverbooksIff(
    t: Tables, item: Id, read: GiftItem, quantity: Option<int>, active: Option<bool>, archived: Option<bool>)
    requires NotOverbooked(t) && item in t.items
    ensures NotOverbooked(SaveStaleItem(t, item, read, quantity, active, archived))
            <==> ConfirmedSum(t.reservations, item) <= Get(quantity, read.quantity)
  {
    var u := SaveStaleItem(t, item, read, quantity, active, archived);
    assert item in u.items && u.items[item].quantity == Get(quantity, read.quantity);
    assert forall i :: i in t.items && i != item ==> u.items[i] == t.items[i];
  }

  /** The quantity is raised and all of it reserved between the read and the save of an edit that names no quantity. */
  lemma StaleEditOverbooks()
    ensures exists t: Tables, item: Id, raised: int, q: int ::
      && item in t.items && NotOverbooked(t)
      && var open := Act(t, EditItem("o", item, Some(raised), None, None));
         var taken := Reserve(open, item, q);
         && Verdict(open, item, q) == Accepted && NotOverbooked(taken)
         && !NotOverbooked(SaveStaleItem(taken, item, t.items[item], None, None, None))
  {
    var t := OneItem(1, 1);
    OneItemIsSound(1, 1);
    var edit := EditItem("o", "i", Some(2), None, None);
    ActOverbooksIffUndercuts(t, edit);
    ActKeepsWellFormed(t, edit);
    ActOnSum(t, edit, "i");
    var open := Act(t, edit);
    assert Verdict(open, "i", 1) == Accepted;
    ReserveKeepsSound(open, "i", 1);
    ReserveOnSum(open, "i", 1, "i");
    StaleEditOverbooksIff(Reserve(open, "i", 1), "i", t.items["i"], None, None, None);
  }
}
