/**
 Friend requests, gift lists and the feed of friends' lists, over every run of the
 service's atomic operations. A friend row's position is its id; deletion is a flag.
 */
module GiftFriends {
  import opened Wrappers
  import opened Strings
  import opened GiftTables
  import opened GiftPublic

  datatype FriendStatus = Pending | Befriended | Rejected

  datatype Friend = Friend(requester: Id, addressee: Id, status: FriendStatus, deleted: bool)

  datatype Social = Social(rows: seq<Friend>, lists: map<Id, GiftList>, now: int)

  datatype Op =
    | Request(user: Id, target: Option<Id>)   // target: the account the e-mail address belongs to
    | Accept(user: Id, row: nat)
    | Reject(user: Id, row: nat)
    | Remove(user: Id, row: nat)
    | CreateList(owner: Id, list: Id, code: string, isPublic: bool, neverExpires: Option<bool>, expiresAt: Option<int>)
    | UpdateList(owner: Id, list: Id, patch: ListPatch)
    | DeleteList(owner: Id, list: Id)
    | Tick(seconds: nat)

  predicate Between(r: Friend, u: Id, v: Id) {
    !r.deleted && ((r.requester == u && r.addressee == v) || (r.requester == v && r.addressee == u))
  }

  function FindBetween(rows: seq<Friend>, u: Id, v: Id): (found: Option<nat>)
    ensures found.Some? ==> found.value < |rows| && Between(rows[found.value], u, v)
    ensures found.None? ==> forall k :: 0 <= k < |rows| ==> !Between(rows[k], u, v)
  {
    if rows == [] then None
    else if Between(rows[|rows| - 1], u, v) then Some(|rows| - 1)
    else FindBetween(rows[..|rows| - 1], u, v)
  }

  function Requested(rows: seq<Friend>, user: Id, target: Option<Id>): seq<Friend> {
    if target.None? || target.value == user then rows
    else
      var found := FindBetween(rows, user, target.value);
      if found.None? then rows + [Friend(user, target.value, Pending, false)]
      else if rows[found.value].status == Rejected then rows[found.value := Friend(user, target.value, Pending, false)]
      else rows
  }

  predicate MayAnswer(rows: seq<Friend>, user: Id, row: nat) {
    row < |rows| && !rows[row].deleted && rows[row].addressee == user && rows[row].status == Pending
  }

  predicate MayRemove(rows: seq<Friend>, user: Id, row: nat) {
    row < |rows| && !rows[row].deleted && (rows[row].requester == user || rows[row].addressee == user)
  }

  /** The alphabet share codes are drawn from: capitals without I and O, digits without 0 and 1. */
  predicate CodeChar(c: char) {
    ('A' <= c <= 'Z' && c != 'I' && c != 'O') || '2' <= c <= '9'
  }

  predicate Generated(code: string) {
    |code| == 8 && forall k :: 0 <= k < 8 ==> CodeChar(code[k])
  }

  predicate MayCreate(lists: map<Id, GiftList>, list: Id, code: string) {
    list !in lists && forall l :: l in lists ==> lists[l].shareCode != code
  }

  function NewList(op: Op): GiftList
    requires op.CreateList?
  {
    var never := Get(op.neverExpires, true);
    GiftList(op.owner, op.code, op.isPublic, true, never, if never then None else op.expiresAt, false)
  }

  /** The lists after an owner action on the gift tables. */
  function ListsAfter(lists: map<Id, GiftList>, op: OwnerOp): map<Id, GiftList> {
    Act(Tables(lists, map[], []), op).lists
  }

  function Do(s: Social, op: Op): Social {
    match op
    case Request(user, target) => s.(rows := Requested(s.rows, user, target))
    case Accept(user, row) =>
      if MayAnswer(s.rows, user, row) then s.(rows := s.rows[row := s.rows[row].(status := Befriended)]) else s
    case Reject(user, row) =>
      if MayAnswer(s.rows, user, row) then s.(rows := s.rows[row := s.rows[row].(status := Rejected)]) else s
    case Remove(user, row) =>
      if MayRemove(s.rows, user, row) then s.(rows := s.rows[row := s.rows[row].(deleted := true)]) else s
    case CreateList(owner, list, code, _, _, _) =>
      if Generated(code) && MayCreate(s.lists, list, code) then s.(lists := s.lists[list := NewList(op)]) else s
    case UpdateList(owner, list, patch) => s.(lists := ListsAfter(s.lists, EditList(owner, list, patch)))
    case DeleteList(owner, list) => s.(lists := ListsAfter(s.lists, DropList(owner, list)))
    case Tick(seconds) => s.(now := s.now + seconds)
  }

  // ---------- Runs and what happened in them ----------

  datatype Run = Init(now: int) | Then(before: Run, op: Op)

  function At(run: Run): Social {
    match run
    case Init(now) => Social([], map[], now)
    case Then(before, op) => Do(At(before), op)
  }

  datatype Event =
    | Asked(who: Id, whom: Id)
    | Answered(who: Id, yes: bool)
    | Removed(who: Id)

  /** The row an operation touches and what happens to it. */
  function Happening(s: Social, op: Op): Option<(nat, Event)> {
    match op
    case Request(user, target) =>
      if target.None? || target.value == user then None
      else
        var found := FindBetween(s.rows, user, target.value);
        if found.None? then Some((|s.rows|, Asked(user, target.value)))
        else if s.rows[found.value].status == Rejected then Some((found.value, Asked(user, target.value)))
        else None
    case Accept(user, row) => if MayAnswer(s.rows, user, row) then Some((row, Answered(user, true))) else None
    case Reject(user, row) => if MayAnswer(s.rows, user, row) then Some((row, Answered(user, false))) else None
    case Remove(user, row) => if MayRemove(s.rows, user, row) then Some((row, Removed(user))) else None
    case _ => None
  }

  function Story(run: Run, row: nat): seq<Event> {
    match run
    case Init(_) => []
    case Then(before, op) =>
      var h := Happening(At(before), op);
      Story(before, row) + if h.Some? && h.value.0 == row then [h.value.1] else []
  }

  /** The story ends with the request that is pending, or with it and its answer. */
  predicate Tells(story: seq<Event>, r: Friend) {
    var n := |story|;
    if r.deleted then
      n >= 1 && story[n - 1].Removed? && (story[n - 1].who == r.requester || story[n - 1].who == r.addressee)
      && TellsStatus(story[..n - 1], r)
    else TellsStatus(story, r)
  }

  predicate TellsStatus(story: seq<Event>, r: Friend) {
    var n := |story|;
    match r.status
    case Pending => n >= 1 && story[n - 1] == Asked(r.requester, r.addressee)
    case Befriended =>
      n >= 2 && story[n - 2] == Asked(r.requester, r.addressee) && story[n - 1] == Answered(r.addressee, true)
    case Rejected =>
      n >= 2 && story[n - 2] == Asked(r.requester, r.addressee) && story[n - 1] == Answered(r.addressee, false)
  }

  predicate OneRowPerPair(rows: seq<Friend>) {
    && (forall k :: 0 <= k < |rows| ==> rows[k].requester != rows[k].addressee)
    && (forall j, k :: 0 <= j < |rows| && 0 <= k < |rows| && j != k && !rows[j].deleted ==>
          !Between(rows[k], rows[j].requester, rows[j].addressee))
  }

  predicate ListsSound(lists: map<Id, GiftList>) {
    && UniqueCodes(lists)
    && (forall l :: l in lists ==>
          Generated(lists[l].shareCode) && (lists[l].neverExpires ==> lists[l].expiresAt.None?))
  }

  lemma DoKeepsRows(s: Social, op: Op)
    requires OneRowPerPair(s.rows)
    ensures OneRowPerPair(Do(s, op).rows)
  {
    match op
    case Request(user, target) => if target.Some? { RequestKeepsRows(s.rows, user, target.value); }
    case Accept(user, row) => if MayAnswer(s.rows, user, row) { StatusKeepsRows(s.rows, row, Befriended); }
    case Reject(user, row) => if MayAnswer(s.rows, user, row) { StatusKeepsRows(s.rows, row, Rejected); }
    case Remove(user, row) => if MayRemove(s.rows, user, row) { RemovalKeepsRows(s.rows, row); }
    case _ =>
  }

  lemma StatusKeepsRows(rows: seq<Friend>, row: nat, status: FriendStatus)
    requires OneRowPerPair(rows) && row < |rows|
    ensures OneRowPerPair(rows[row := rows[row].(status := status)])
  {
  }

  lemma RemovalKeepsRows(rows: seq<Friend>, row: nat)
    requires OneRowPerPair(rows) && row < |rows|
    ensures OneRowPerPair(rows[row := rows[row].(deleted := true)])
  {
  }

  lemma RequestKeepsRows(rows: seq<Friend>, user: Id, target: Id)
    requires OneRowPerPair(rows)
    ensures OneRowPerPair(Requested(rows, user, Some(target)))
  {
    var found := FindBetween(rows, user, target);
    if found.Some? { assert Between(rows[found.value], user, target); }
  }

  lemma DoKeepsLists(s: Social, op: Op)
    requires ListsSound(s.lists)
    ensures ListsSound(Do(s, op).lists)
  {
    match op
    case CreateList(_, list, code, _, _, _) =>
      if Generated(code) && MayCreate(s.lists, list, code) { SaveKeepsLists(s.lists, list, NewList(op)); }
    case UpdateList(owner, list, patch) => EditKeepsLists(s.lists, owner, list, patch);
    case DeleteList(owner, list) => DropKeepsLists(s.lists, owner, list);
    case _ =>
  }

  lemma EditKeepsLists(lists: map<Id, GiftList>, owner: Id, list: Id, patch: ListPatch)
    requires ListsSound(lists)
    ensures ListsSound(ListsAfter(lists, EditList(owner, list, patch)))
  {
    if OwnsList(lists, owner, list) { SaveKeepsLists(lists, list, PatchedList(lists[list], patch)); }
  }

  lemma DropKeepsLists(lists: map<Id, GiftList>, owner: Id, list: Id)
    requires ListsSound(lists)
    ensures ListsSound(ListsAfter(lists, DropList(owner, list)))
  {
    if OwnsList(lists, owner, list) { SaveKeepsLists(lists, list, lists[list].(deleted := true)); }
  }

  lemma SaveKeepsLists(lists: map<Id, GiftList>, list: Id, row: GiftList)
    requires ListsSound(lists)
    requires Generated(row.shareCode) && (row.neverExpires ==> row.expiresAt.None?)
    requires forall l :: l in lists && l != list ==> lists[l].shareCode != row.shareCode
    ensures ListsSound(lists[list := row])
  {
  }

  lemma DoTells(s: Social, op: Op, row: nat, story: seq<Event>)
    requires row < |Do(s, op).rows|
    requires if row < |s.rows| then Tells(story, s.rows[row]) else story == []
    ensures var h := Happening(s, op);
            Tells(story + if h.Some? && h.value.0 == row then [h.value.1] else [], Do(s, op).rows[row])
  {
    var h := Happening(s, op);
    if h.Some? && h.value.0 == row {
      EventTells(s, op, h.value.1, row, story);
    } else {
      assert story + [] == story;
      assert row < |s.rows| && Do(s, op).rows[row] == s.rows[row];
    }
  }

  lemma EventTells(s: Social, op: Op, e: Event, row: nat, story: seq<Event>)
    requires Happening(s, op) == Some((row, e)) && row < |Do(s, op).rows|
    requires if row < |s.rows| then Tells(story, s.rows[row]) else story == []
    ensures Tells(story + [e], Do(s, op).rows[row])
  {
    var told, n := story + [e], |story|;
    assert told[..n] == story && told[n] == e;
    if op.Accept? || op.Reject? { assert told[n - 1] == story[n - 1]; }
  }

  lemma {:induction false} NoRowNoStory(run: Run, row: nat)
    requires row >= |At(run).rows|
    ensures Story(run, row) == []
  {
    if run.Then? { NoRowNoStory(run.before, row); }
  }

  /**
   In every reachable state there is at most one live row per unordered pair of users, none
   with oneself, and each row's own history ends with the request by its requester and, once
   answered, the answer of its addressee: nobody is a friend without both.
   */
  lemma {:induction false} FriendshipsAreMutual(run: Run)
    ensures OneRowPerPair(At(run).rows)
    ensures ListsSound(At(run).lists)
    ensures forall row :: 0 <= row < |At(run).rows| ==> Tells(Story(run, row), At(run).rows[row])
  {
    if run.Then? {
      var s := At(run.before);
      FriendshipsAreMutual(run.before);
      DoKeepsRows(s, run.op);
      DoKeepsLists(s, run.op);
      forall row | 0 <= row < |At(run).rows| ensures Tells(Story(run, row), At(run).rows[row]) {
        if row >= |s.rows| { NoRowNoStory(run.before, row); }
        DoTells(s, run.op, row, Story(run.before, row));
      }
    }
  }

  // ---------- What each operation brings about ----------

  /** A request leaves the two connected: pending from the user unless they were pending or friends before. */
  lemma RequestConnects(s: Social, user: Id, target: Id)
    requires OneRowPerPair(s.rows) && user != target
    ensures var rows := Do(s, Request(user, Some(target))).rows;
            && (exists k :: 0 <= k < |rows| && Between(rows[k], user, target))
            && (forall k :: 0 <= k < |rows| && Between(rows[k], user, target) ==>
                  if k < |s.rows| && s.rows[k].status != Rejected then rows[k] == s.rows[k]
                  else rows[k].status == Pending && rows[k].requester == user && rows[k].addressee == target)
            && (forall k :: 0 <= k < |s.rows| && !Between(s.rows[k], user, target) ==> rows[k] == s.rows[k])
  {
    var found, rows := FindBetween(s.rows, user, target), Do(s, Request(user, Some(target))).rows;
    if found.Some? {
      assert Between(s.rows[found.value], user, target) && Between(rows[found.value], user, target);
      DoKeepsRows(s, Request(user, Some(target)));
      forall k | 0 <= k < |rows| && Between(rows[k], user, target) ensures k == found.value {
        OnlyOneBetween(rows, k, found.value, user, target);
      }
    } else {
      assert Between(rows[|s.rows|], user, target);
    }
  }

  lemma OnlyOneBetween(rows: seq<Friend>, j: nat, k: nat, u: Id, v: Id)
    requires OneRowPerPair(rows) && j < |rows| && k < |rows| && Between(rows[j], u, v) && Between(rows[k], u, v)
    ensures j == k
  {
  }

  /** Nobody asks oneself, or nobody. */
  lemma NoRequest(s: Social, user: Id)
    ensures Do(s, Request(user, None)) == s && Do(s, Request(user, Some(user))) == s
  {
  }

  /** The addressee of a live pending row answers it; anybody else, and any other row, changes nothing. */
  lemma AnswerTakesEffect(s: Social, user: Id, row: nat)
    ensures var r, yes, no := row, Do(s, Accept(user, row)), Do(s, Reject(user, row));
            if row < |s.rows| && !s.rows[row].deleted && s.rows[row].addressee == user && s.rows[row].status == Pending
            then
              && yes.rows == s.rows[row := s.rows[row].(status := Befriended)]
              && no.rows == s.rows[row := s.rows[row].(status := Rejected)]
              && AreFriends(yes.rows, s.rows[row].requester, user)
            else yes == s && no == s
  {
    var yes := Do(s, Accept(user, row));
    if MayAnswer(s.rows, user, row) { assert Between(yes.rows[row], s.rows[row].requester, user); }
  }

  /** Either of the two removes a live row, which leaves them unconnected; nobody else can. */
  lemma RemovalTakesEffect(s: Social, user: Id, row: nat)
    requires OneRowPerPair(s.rows) && row < |s.rows| && !s.rows[row].deleted
    ensures var r, after := s.rows[row], Do(s, Remove(user, row));
            if user == r.requester || user == r.addressee
            then
              && after.rows == s.rows[row := r.(deleted := true)]
              && forall k :: 0 <= k < |after.rows| ==> !Between(after.rows[k], r.requester, r.addressee)
            else after == s
  {
  }

  /** A new list is open under its code exactly if it is public and never expires, as by default, or not yet. */
  lemma CreatedListOpens(
    s: Social, owner: Id, list: Id, code: string, isPublic: bool, neverExpires: Option<bool>, expiresAt: Option<int>)
    requires Generated(code) && list !in s.lists && forall l :: l in s.lists ==> s.lists[l].shareCode != code
    ensures var after := Do(s, CreateList(owner, list, code, isPublic, neverExpires, expiresAt));
            && list in after.lists && after.lists[list].ownerId == owner
            && (OpensTo(after.lists, s.now, code, list) <==>
                  isPublic && (neverExpires != Some(false) || (expiresAt.Some? && s.now < expiresAt.value)))
  {
    GeneratedIsNormal(code);
  }

  // ---------- The feed ----------

  predicate AreFriends(rows: seq<Friend>, u: Id, v: Id) {
    exists k :: 0 <= k < |rows| && Between(rows[k], u, v) && rows[k].status == Befriended
  }

  /** The owners the feed's sub-query selects: the other end of each live accepted row of the user. */
  predicate FriendOwner(rows: seq<Friend>, user: Id, owner: Id) {
    exists k :: 0 <= k < |rows|
      && (rows[k].requester == user || rows[k].addressee == user)
      && rows[k].status == Befriended && !rows[k].deleted
      && owner == if rows[k].requester == user then rows[k].addressee else rows[k].requester
  }

  /** `GetListsByFriendOwners` */
  function Feed(s: Social, user: Id): set<Id> {
    set l | l in s.lists && !s.lists[l].deleted && FriendOwner(s.rows, user, s.lists[l].ownerId)
         && s.lists[l].active && s.lists[l].isPublic
         && (s.lists[l].neverExpires || (s.lists[l].expiresAt.Some? && s.lists[l].expiresAt.value > s.now))
  }

  lemma GeneratedIsNormal(code: string)
    requires Generated(code)
    ensures Upper(Trim(code)) == code
  {
    assert CodeChar(code[0]) && CodeChar(code[7]);
    TrimKeepsTrimmed(code);
  }

  lemma FriendOwnerIsFriend(rows: seq<Friend>, user: Id, owner: Id)
    requires OneRowPerPair(rows)
    ensures FriendOwner(rows, user, owner) <==> AreFriends(rows, user, owner)
    ensures FriendOwner(rows, user, owner) ==> owner != user
  {
  }

  lemma OwnCodeOpens(lists: map<Id, GiftList>, now: int, list: Id, l: Id)
    requires ListsSound(lists) && list in lists
    ensures OpensTo(lists, now, lists[list].shareCode, l) <==> l == list && !lists[l].deleted && Open(lists[l], now)
  {
    GeneratedIsNormal(lists[list].shareCode);
    if l in lists && lists[l].shareCode == lists[list].shareCode { assert l == list; }
  }

  /**
   A list is in a user's feed exactly when its owner is an accepted friend, and never the user,
   and its own share code opens it, and only it, on the public page at that moment.
   */
  lemma FeedIsFriendsOpenLists(run: Run, user: Id, list: Id, other: Id)
    requires list in At(run).lists
    ensures var s, code := At(run), At(run).lists[list].shareCode;
            && (list in Feed(s, user) <==>
                  AreFriends(s.rows, user, s.lists[list].ownerId) && OpensTo(s.lists, s.now, code, list))
            && (list in Feed(s, user) ==> s.lists[list].ownerId != user)
            && (OpensTo(s.lists, s.now, code, other) ==> other == list)
  {
    var s := At(run);
    FriendshipsAreMutual(run);
    FriendOwnerIsFriend(s.rows, user, s.lists[list].ownerId);
    OwnCodeOpens(s.lists, s.now, list, list);
    OwnCodeOpens(s.lists, s.now, list, other);
  }

  // ---------- The service's methods ----------

  datatype FriendError = UserNotFound | Self | Forbidden | RowNotFound

  class FriendService {
    var rows: seq<Friend>

    constructor ()
      ensures rows == []
    {
      rows := [];
    }

    method RequestFriend(user: Id, target: Option<Id>) returns (r: Result<nat, FriendError>)
      modifies this
      ensures rows == Requested(old(rows), user, target)
      ensures r.Ok? <==> target.Some? && target.value != user
      ensures r.Ok? ==> r.value < |rows| && Between(rows[r.value], user, target.value)
      ensures r.Err? ==> r.error == if target.None? then UserNotFound else Self
    {
      if target.None? { return Err(UserNotFound); }
      if target.value == user { return Err(Self); }
      var found := FindBetween(rows, user, target.value);
      if found.Some? {
        var existing := rows[found.value];
        if existing.status == Rejected {
          existing := existing.(requester := user);
          existing := existing.(addressee := target.value);
          existing := existing.(status := Pending);
          rows := rows[found.value := existing];
        }
        return Ok(found.value);
      }
      rows := rows + [Friend(user, target.value, Pending, false)];
      return Ok(|rows| - 1);
    }

    method UpdateFriendStatus(user: Id, row: nat, yes: bool) returns (r: Result<Friend, FriendError>)
      modifies this
      ensures r.Ok? <==> MayAnswer(old(rows), user, row)
      ensures Social(rows, map[], 0)
           == Do(Social(old(rows), map[], 0), if yes then Accept(user, row) else Reject(user, row))
      ensures r.Ok? ==> r.value == rows[row]
      ensures r.Err? ==> r.error == if row >= |rows| || rows[row].deleted then RowNotFound else Forbidden
    {
      if row >= |rows| || rows[row].deleted { return Err(RowNotFound); }
      var friend := rows[row];
      if friend.addressee != user || friend.status != Pending { return Err(Forbidden); }
      friend := friend.(status := if yes then Befriended else Rejected);
      rows := rows[row := friend];
      return Ok(friend);
    }

    method DeleteFriend(user: Id, row: nat) returns (r: Option<FriendError>)
      modifies this
      ensures r.None? <==> MayRemove(old(rows), user, row)
      ensures Social(rows, map[], 0) == Do(Social(old(rows), map[], 0), Remove(user, row))
      ensures r.Some? ==> r.value == if row >= |rows| || rows[row].deleted then RowNotFound else Forbidden
    {
      if row >= |rows| || rows[row].deleted { return Some(RowNotFound); }
      if rows[row].requester != user && rows[row].addressee != user { return Some(Forbidden); }
      rows := rows[row := rows[row].(deleted := true)];
      return None;
    }
  }
}
