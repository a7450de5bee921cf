/**
 Refresh calls over the session store and the blacklist together: what the tokens of a reported
 success are worth when calls interleave with each other and with everything else that happens to
 sessions. A token's text is its id. Ids and new tokens have never been used before.
 */
module Refresh {
  import opened Wrappers
  import opened Redis
  import opened Sessions
  import Revocation

  type Token = Revocation.Token

  datatype Issued = Issued(session: Id, access: string, refresh: string, expiresAt: int)

  /** A call after its checks, its session lookup, its rotation and its answer. */
  datatype Call =
    | Checked(spent: Token)
    | Found(spent: Token, session: Id)
    | Rotated(spent: Token, issued: Issued)
    | Succeeded(spent: Token, issued: Issued)
    | Refused(spent: Token)

  datatype System = System(
    db: Db, rows: Revocation.Blacklist, calls: map<nat, Call>, usedIds: set<Id>, usedTokens: set<string>)

  datatype Action =
    | Check(call: nat, token: Token)
    | FindSession(call: nat)
    | RotateSession(call: nat, access: string, refresh: string, expiresAt: int)
    | Revoke(call: nat)
    | Logout(token: Token)
    | Store(step: Step)     // logins, activity, destroyed sessions, pruned sets, time

  ghost predicate Enabled(s: System, a: Action) {
    match a
    case Check(call, _) => call !in s.calls
    case FindSession(call) => call in s.calls && s.calls[call].Checked?
    case RotateSession(call, access, refresh, _) =>
      call in s.calls && s.calls[call].Found? && access !in s.usedTokens && refresh !in s.usedTokens
    case Revoke(call) => call in s.calls && s.calls[call].Rotated?
    case Logout(_) => true
    case Store(step) =>
      && !step.RotateTokens?
      && (step.Login? ==>
            && step.session.id !in s.usedIds
            && step.session.access !in s.usedTokens && step.session.refresh !in s.usedTokens)
  }

  function Act(s: System, a: Action): System
    requires Enabled(s, a)
  {
    match a
    case Check(call, token) =>
      var ok := Revocation.Valid(token, s.db.now) && token.refresh && token !in s.rows;
      s.(calls := s.calls[call := if ok then Checked(token) else Refused(token)])
    case FindSession(call) =>
      var spent := s.calls[call].spent;
      var found := FindByRefresh(s.db, spent.id);
      s.(calls := s.calls[call := if found.None? then Refused(spent) else Found(spent, found.value.id)])
    case RotateSession(call, access, refresh, expiresAt) =>
      var Found(spent, id) := s.calls[call];
      var ok := Find(s.db, id).Some? && expiresAt > s.db.now;
      s.(db := Rotate(s.db, id, access, refresh, expiresAt),
         calls := s.calls[call :=
           if ok then Rotated(spent, Issued(id, access, refresh, expiresAt)) else Refused(spent)],
         usedTokens := s.usedTokens + {access, refresh})
    case Revoke(call) =>
      var Rotated(spent, issued) := s.calls[call];
      var (rows, ok) := Revocation.LogoutUser(s.rows, s.db.now, spent);
      s.(rows := rows, calls := s.calls[call := if ok then Succeeded(spent, issued) else Refused(spent)])
    case Logout(token) => s.(rows := Revocation.LogoutUser(s.rows, s.db.now, token).0)
    case Store(step) =>
      s.(db := Next(s.db, step),
         usedIds := if step.Login? then s.usedIds + {step.session.id} else s.usedIds,
         usedTokens := if step.Login? then s.usedTokens + {step.session.access, step.session.refresh}
                       else s.usedTokens)
  }

  datatype History = Begin(now: int) | Later(before: History, a: Action)

  ghost predicate Possible(h: History)
    decreases h, 0
  {
    h.Later? ==> Possible(h.before) && Enabled(Reach(h.before), h.a)
  }

  ghost function Reach(h: History): System
    requires Possible(h)
    decreases h, 1
  {
    match h
    case Begin(now) => System(Db(now, map[], map[], map[], map[]), map[], map[], {}, {})
    case Later(before, a) => Act(Reach(before), a)
  }

  // ---------- Everything in the store has been used ----------

  predicate IdKnown(s: System, id: Id) {
    Find(s.db, id).Some? ==>
      var e := Find(s.db, id).value;
      id in s.usedIds && e.access in s.usedTokens && e.refresh in s.usedTokens
  }

  predicate MembersKnown(s: System, user: Id) { SMembers(s.db.users, s.db.now, user) <= s.usedIds }

  ghost predicate Known(s: System) {
    && Coherent(s.db)
    && (forall id :: IdKnown(s, id))
    && (forall user :: MembersKnown(s, user))
  }

  /** The step an action makes in the session store. */
  function StoreStep(s: System, a: Action): Option<Step>
    requires a.RotateSession? ==> a.call in s.calls && s.calls[a.call].Found?
  {
    match a
    case RotateSession(call, access, refresh, expiresAt) =>
      Some(RotateTokens(s.calls[call].session, access, refresh, expiresAt))
    case Store(step) => Some(step)
    case _ => None
  }

  lemma StepIsFresh(s: System, a: Action)
    requires Known(s) && Enabled(s, a) && StoreStep(s, a).Some?
    ensures Fresh(s.db, StoreStep(s, a).value)
    ensures Act(s, a).db == Next(s.db, StoreStep(s, a).value)
  {
    var step := StoreStep(s, a).value;
    forall t | Get(s.db.access, s.db.now, t).Some? ensures t in s.usedTokens {
      assert AccessSound(s.db, t) && IdKnown(s, FindByAccess(s.db, t).value.id)
          && SessionSound(s.db, s.db.access[t].value);
    }
    forall t | Get(s.db.refresh, s.db.now, t).Some? ensures t in s.usedTokens {
      assert RefreshSound(s.db, t) && IdKnown(s, FindByRefresh(s.db, t).value.id)
          && SessionSound(s.db, s.db.refresh[t].value);
    }
    if step.Login? {
      assert IdKnown(s, step.session.id);
      forall u ensures step.session.id !in SMembers(s.db.users, s.db.now, u) { assert MembersKnown(s, u); }
    }
  }

  lemma MembersAfter(db: Db, step: Step, user: Id)
    ensures SMembers(Next(db, step).users, Next(db, step).now, user)
         <= SMembers(db.users, db.now, user) + if step.Login? then {step.session.id} else {}
  {
  }

  lemma ActKeepsKnown(s: System, a: Action)
    requires Known(s) && Enabled(s, a)
    ensures Known(Act(s, a))
  {
    var n := Act(s, a);
    if StoreStep(s, a).Some? {
      var step := StoreStep(s, a).value;
      StepIsFresh(s, a);
      StepKeepsCoherent(s.db, step);
      forall id ensures IdKnown(n, id) {
        assert IdKnown(s, id) && SessionSound(s.db, id);
        StepRefines(s.db, step, id);
      }
      forall user ensures MembersKnown(n, user) {
        assert MembersKnown(s, user);
        MembersAfter(s.db, step, user);
      }
    } else {
      assert n.db == s.db && n.usedIds == s.usedIds && n.usedTokens == s.usedTokens;
      forall id ensures IdKnown(n, id) { assert IdKnown(s, id); }
      forall user ensures MembersKnown(n, user) { assert MembersKnown(s, user); }
    }
  }

  // ---------- What a call's new tokens are worth ----------

  predicate HasIssued(s: System, call: nat) {
    call in s.calls && (s.calls[call].Rotated? || s.calls[call].Succeeded?)
  }

  /** Does this action rotate, or destroy, the live session with this id? */
  predicate Takes(s: System, a: Action, id: Id)
    requires a.RotateSession? ==> a.call in s.calls && s.calls[a.call].Found?
  {
    Find(s.db, id).Some?
    && match a
       case RotateSession(call, _, _, expiresAt) => s.calls[call].session == id && expiresAt > s.db.now
       case Store(step) => step == Destroy(id)
       case _ => false
  }

  /** Since the call rotated its session, another call has rotated it over that, or somebody has destroyed it. */
  ghost predicate Overtaken(h: History, call: nat)
    requires Possible(h)
  {
    h.Later? &&
    var s := Reach(h.before);
    HasIssued(s, call) && (Overtaken(h.before, call) || Takes(s, h.a, s.calls[call].issued.session))
  }

  /**
   The issued tokens are the session's own as long as it lives and nothing has overtaken the call,
   and nobody's otherwise.
   */
  ghost predicate Worth(s: System, i: Issued, overtaken: bool) {
    && i.access in s.usedTokens && i.refresh in s.usedTokens && i.session in s.usedIds
    && (forall id :: HolderIs(s, i, overtaken, id))
    && (!overtaken ==>
          && (Find(s.db, i.session).Some? <==> s.db.now < i.expiresAt)
          && (Find(s.db, i.session).Some? ==>
                var e := Find(s.db, i.session).value;
                e.access == i.access && e.refresh == i.refresh && e.expiresAt == i.expiresAt))
  }

  predicate HolderIs(s: System, i: Issued, overtaken: bool, id: Id) {
    Find(s.db, id).Some? && (Find(s.db, id).value.access == i.access || Find(s.db, id).value.refresh == i.refresh) ==>
      id == i.session && !overtaken
  }

  lemma WorthAfter(s: System, a: Action, i: Issued, overtaken: bool)
    requires Known(s) && Enabled(s, a) && Worth(s, i, overtaken)
    ensures Worth(Act(s, a), i, overtaken || Takes(s, a, i.session))
  {
    var n := Act(s, a);
    if StoreStep(s, a).Some? {
      var step := StoreStep(s, a).value;
      StepIsFresh(s, a);
      assert SessionSound(s.db, i.session);
      StepRefines(s.db, step, i.session);
      var taken := overtaken || Takes(s, a, i.session);
      forall id ensures HolderIs(n, i, taken, id) {
        assert HolderIs(s, i, overtaken, id) && SessionSound(s.db, id);
        StepRefines(s.db, step, id);
      }
    } else {
      forall id ensures HolderIs(n, i, overtaken, id) { assert HolderIs(s, i, overtaken, id); }
    }
  }

  lemma WorthAtRotation(s: System, a: Action)
    requires Known(s) && Enabled(s, a) && a.RotateSession? && Act(s, a).calls[a.call].Rotated?
    ensures Worth(Act(s, a), Act(s, a).calls[a.call].issued, false)
  {
    var n, step := Act(s, a), StoreStep(s, a).value;
    var i := n.calls[a.call].issued;
    StepIsFresh(s, a);
    assert SessionSound(s.db, i.session) && IdKnown(s, i.session);
    StepRefines(s.db, step, i.session);
    forall id ensures HolderIs(n, i, false, id) {
      assert SessionSound(s.db, id) && IdKnown(s, id);
      StepRefines(s.db, step, id);
    }
  }

  lemma {:induction false} EveryStateKnown(h: History)
    requires Possible(h)
    ensures Known(Reach(h))
  {
    if h.Later? {
      EveryStateKnown(h.before);
      ActKeepsKnown(Reach(h.before), h.a);
    }
  }

  lemma {:induction false} EveryIssueWorth(h: History, call: nat)
    requires Possible(h) && HasIssued(Reach(h), call)
    ensures Worth(Reach(h), Reach(h).calls[call].issued, Overtaken(h, call))
  {
    var s := Reach(h.before);
    EveryStateKnown(h.before);
    if HasIssued(s, call) {
      EveryIssueWorth(h.before, call);
      WorthAfter(s, h.a, s.calls[call].issued, Overtaken(h.before, call));
    } else {
      WorthAtRotation(s, h.a);
    }
  }

  /**
   At any moment of any run, each of the two tokens a call has issued, whether it has answered yet
   or not, resolves to the session it rotated exactly if that session has not run out and nothing
   has rotated it again or destroyed it since; otherwise both resolve to nothing.
   */
  lemma IssuedTokensResolveIff(h: History, call: nat)
    requires Possible(h) && HasIssued(Reach(h), call)
    ensures var s, i := Reach(h), Reach(h).calls[call].issued;
            var a, r := FindByAccess(s.db, i.access), FindByRefresh(s.db, i.refresh);
            && (if !Overtaken(h, call) && s.db.now < i.expiresAt
                then a.Some? && a.value.id == i.session && r == a
                else a.None? && r.None?)
  {
    var s, i := Reach(h), Reach(h).calls[call].issued;
    EveryStateKnown(h);
    EveryIssueWorth(h, call);
    var a, r, e := FindByAccess(s.db, i.access), FindByRefresh(s.db, i.refresh), Find(s.db, i.session);
    if a.Some? {
      TokensResolveToHolders(s.db, i.access, a.value);
      assert HolderIs(s, i, Overtaken(h, call), a.value.id);
    }
    if r.Some? {
      TokensResolveToHolders(s.db, i.refresh, r.value);
      assert HolderIs(s, i, Overtaken(h, call), r.value.id);
    }
    if e.Some? && !Overtaken(h, call) {
      assert SessionSound(s.db, i.session);
      TokensResolveToHolders(s.db, i.access, e.value);
      TokensResolveToHolders(s.db, i.refresh, e.value);
    }
  }

  // ---------- A success that is worth nothing ----------

  lemma Taken(h: History, a: Action)
    requires Possible(h) && Enabled(Reach(h), a)
    ensures Possible(Later(h, a)) && Reach(Later(h, a)) == Act(Reach(h), a)
  {
  }

  /** Both calls have found the session before either rotates it. */
  ghost predicate BothFound(s: System, spent: Token, e: Session) {
    && s.db.now == 0 && Find(s.db, e.id) == Some(e) && s.rows == map[]
    && s.calls == map[0 := Found(spent, e.id), 1 := Found(spent, e.id)]
    && s.usedTokens == {e.access, e.refresh}
  }

  lemma BothMayFind(spent: Token, e: Session) returns (h: History)
    requires spent.signed && spent.refresh && spent.id == e.refresh && spent.expiresAt == Some(9) && e.expiresAt == 9
    ensures Possible(h) && BothFound(Reach(h), spent, e)
  {
    h := Begin(0);
    var s := Reach(h);
    EveryStateKnown(h);
    StepIsFresh(s, Store(Login(e)));
    StepRefines(s.db, Login(e), e.id);
    Taken(h, Store(Login(e)));
    h := Later(h, Store(Login(e)));
    EveryStateKnown(h);
    TokensResolveToHolders(Reach(h).db, e.refresh, e);
    Taken(h, Check(0, spent));
    h := Later(h, Check(0, spent));
    Taken(h, FindSession(0));
    h := Later(h, FindSession(0));
    Taken(h, Check(1, spent));
    h := Later(h, Check(1, spent));
    Taken(h, FindSession(1));
    h := Later(h, FindSession(1));
    assert Reach(h).calls == map[0 := Found(spent, e.id), 1 := Found(spent, e.id)];
  }

  ghost predicate WorthlessSuccess(h: History, call: nat)
    requires Possible(h)
  {
    var s := Reach(h);
    && call in s.calls && s.calls[call].Succeeded? && s.db.now < s.calls[call].issued.expiresAt
    && FindByAccess(s.db, s.calls[call].issued.access).None?
    && FindByRefresh(s.db, s.calls[call].issued.refresh).None?
  }

  /** Two calls find the session, the first rotates, the second rotates over it, the first reports success. */
  lemma SuccessMayBeWorthless()
    ensures exists h, call :: Possible(h) && WorthlessSuccess(h, call)
  {
    var e, spent := Session("0", "u", "a", "r", 0, 9), Revocation.Token("r", true, true, Some(9));
    var found := BothMayFind(spent, e);
    var first, second := RotateSession(0, "b", "c", 9), RotateSession(1, "d", "f", 9);
    var s := Reach(found);
    EveryStateKnown(found);
    assert SessionSound(s.db, "0");
    Taken(found, first);
    var one := Later(found, first);
    StepIsFresh(s, first);
    StepRefines(s.db, RotateTokens("0", "b", "c", 9), "0");
    Taken(one, second);
    var two := Later(one, second);
    Taken(two, Revoke(0));
    var h := Later(two, Revoke(0));
    assert Takes(Reach(one), second, "0") && Overtaken(two, 0) && Overtaken(h, 0);
    assert Reach(h).calls[0] == Succeeded(spent, Issued("0", "b", "c", 9));
    IssuedTokensResolveIff(h, 0);
    assert WorthlessSuccess(h, 0);
  }

  // ---------- The blacklist alone decides what is accepted ----------

  function Plain(c: Call): Revocation.Call {
    match c
    case Checked(spent) => Revocation.Checked(spent)
    case Found(spent, _) => Revocation.Found(spent)
    case Rotated(spent, _) => Revocation.Rotated(spent)
    case Succeeded(spent, _) => Revocation.Answered(spent, true)
    case Refused(spent) => Revocation.Answered(spent, false)
  }

  ghost predicate Matches(s: System, r: Revocation.System) {
    && r.now == s.db.now && r.rows == s.rows
    && r.calls.Keys == s.calls.Keys && forall c :: c in s.calls ==> r.calls[c] == Plain(s.calls[c])
  }

  /** An action as the blacklist sees it: not the session store itself, only what the store answers. */
  ghost function SeenStep(s: System, a: Action): Revocation.Step
    requires Enabled(s, a) && !a.Store?
  {
    match a
    case Check(call, token) => Revocation.Check(call, token)
    case FindSession(call) => Revocation.FindSession(call, FindByRefresh(s.db, s.calls[call].spent.id).Some?)
    case RotateSession(call, _, _, expiresAt) =>
      Revocation.Rotate(call, Find(s.db, s.calls[call].session).Some? && expiresAt > s.db.now)
    case Revoke(call) => Revocation.Revoke(call)
    case Logout(token) => Revocation.Logout(token)
  }

  /** The same run as the blacklist sees it. */
  ghost function Seen(h: History): Revocation.Run
    requires Possible(h)
  {
    match h
    case Begin(now) => Revocation.Init(now)
    case Later(before, a) =>
      if !a.Store? then Revocation.Then(Seen(before), SeenStep(Reach(before), a))
      else if a.step.Tick? then Revocation.Then(Seen(before), Revocation.Tick(a.step.seconds))
      else Seen(before)
  }

  lemma ClockOf(db: Db, step: Step)
    ensures Next(db, step).now == if step.Tick? then db.now + step.seconds else db.now
  {
  }

  lemma {:induction false} SeenMatches(h: History)
    requires Possible(h)
    ensures Revocation.Possible(Seen(h)) && Matches(Reach(h), Revocation.At(Seen(h)))
  {
    if h.Later? {
      var s := Reach(h.before);
      SeenMatches(h.before);
      if h.a.Store? {
        ClockOf(s.db, h.a.step);
      } else {
        assert Seen(h) == Revocation.Then(Seen(h.before), SeenStep(s, h.a));
        ActMatches(s, Revocation.At(Seen(h.before)), h.a);
      }
    }
  }

  /** One action of a call or a logout. */
  lemma ActMatches(s: System, r: Revocation.System, a: Action)
    requires Matches(s, r) && Enabled(s, a) && !a.Store?
    ensures Revocation.Enabled(r, SeenStep(s, a)) && Matches(Act(s, a), Revocation.Next(r, SeenStep(s, a)))
  {
    if a.RotateSession? {
      assert Rotate(s.db, s.calls[a.call].session, a.access, a.refresh, a.expiresAt).now == s.db.now;
    }
  }

  /**
   The middleware accepts exactly the valid access tokens never revoked, whatever has happened to
   their sessions meanwhile; and a refresh token brings at most one success, whatever the store answers.
   */
  lemma AcceptedWhateverSessions(h: History, token: Token)
    requires Possible(h)
    ensures Revocation.Possible(Seen(h))
    ensures Revocation.Accepts(Reach(h).rows, Reach(h).db.now, token) <==>
              && token.signed && (token.expiresAt.Some? ==> Reach(h).db.now < token.expiresAt.value)
              && !token.refresh && Revocation.Revocations(Seen(h), token) == 0
    ensures Revocation.Refreshes(Seen(h), token) <= 1
  {
    SeenMatches(h);
    Revocation.AcceptedIffNeverRevoked(Seen(h), token);
    Revocation.RefreshedAtMostOnce(Seen(h), token);
  }

  /** Ends the session that holds this access token: destroys it, or rotates it to other tokens. */
  ghost predicate Ends(s: System, a: Action, e: Session)
    requires Enabled(s, a)
  {
    Find(s.db, e.id) == Some(e) && Takes(s, a, e.id)
  }

  lemma EndedTokenIsNobodys(s: System, a: Action, e: Session, id: Id)
    requires Known(s) && Enabled(s, a) && Ends(s, a, e)
    ensures Find(Act(s, a).db, id).Some? ==> Find(Act(s, a).db, id).value.access != e.access
  {
    StepIsFresh(s, a);
    assert SessionSound(s.db, id) && SessionSound(s.db, e.id) && IdKnown(s, e.id);
    StepRefines(s.db, StoreStep(s, a).value, id);
    TokensResolveToHolders(s.db, e.access, e);
    if Find(s.db, id).Some? { TokensResolveToHolders(s.db, e.access, Find(s.db, id).value); }
  }

  /** A token whose session is destroyed, or given other tokens, resolves to nothing and is accepted as before. */
  lemma EndedButAccepted(h: History, a: Action, e: Session, token: Token)
    requires Possible(h) && Enabled(Reach(h), a) && Ends(Reach(h), a, e) && token.id == e.access
    ensures var s, n := Reach(h), Reach(Later(h, a));
            && FindByAccess(n.db, e.access).None?
            && (Revocation.Accepts(n.rows, n.db.now, token) <==> Revocation.Accepts(s.rows, s.db.now, token))
  {
    var s, n := Reach(h), Reach(Later(h, a));
    EveryStateKnown(h);
    EveryStateKnown(Later(h, a));
    StepIsFresh(s, a);
    ClockOf(s.db, StoreStep(s, a).value);
    var holder := FindByAccess(n.db, e.access);
    if holder.Some? {
      TokensResolveToHolders(n.db, e.access, holder.value);
      EndedTokenIsNobodys(s, a, e, holder.value.id);
    }
  }

  ghost predicate AcceptedWithoutSession(h: History, token: Token)
    requires Possible(h)
  {
    var s := Reach(h);
    && Revocation.Accepts(s.rows, s.db.now, token)
    && token.id in s.usedTokens && FindByAccess(s.db, token.id).None?
  }

  /** A run after which the middleware accepts an access token that a refresh has replaced. */
  lemma ReplacedTokenIsAccepted()
    ensures exists h, token :: Possible(h) && AcceptedWithoutSession(h, token)
  {
    var e, spent := Session("0", "u", "a", "r", 0, 9), Revocation.Token("r", true, true, Some(9));
    var found := BothMayFind(spent, e);
    var token, first := Revocation.Token("a", true, false, Some(9)), RotateSession(0, "b", "c", 9);
    Taken(found, first);
    assert Takes(Reach(found), first, "0");
    EndedButAccepted(found, first, e, token);
    assert AcceptedWithoutSession(Later(found, first), token);
  }
}
