/**
 The session store: four keyspaces (sessions, a set of session ids per user, an index by
 access token, an index by refresh token), each key with its own expiry, that together
 must behave as one map from session id to live session.
 */
module Sessions {
  import opened Wrappers
  import opened Redis

  type Id = string

  datatype Session = Session(
    id: Id, user: Id, access: string, refresh: string, lastActivity: int, expiresAt: int)

  datatype Db = Db(
    now: int,
    sessions: Keyspace<Id, Session>,
    users: Keyspace<Id, set<Id>>,
    access: Keyspace<string, Id>,
    refresh: Keyspace<string, Id>)

  // ---------- The repository's operations, each pipeline one step ----------

  function Find(db: Db, id: Id): Option<Session> { Get(db.sessions, db.now, id) }

  function Follow(db: Db, index: Keyspace<string, Id>, token: string): Option<Session> {
    var id := Get(index, db.now, token);
    if id.None? then None else Find(db, id.value)
  }

  function FindByAccess(db: Db, token: string): Option<Session> { Follow(db, db.access, token) }

  function FindByRefresh(db: Db, token: string): Option<Session> { Follow(db, db.refresh, token) }

  function Create(db: Db, s: Session): Db {
    var ttl := s.expiresAt - db.now;
    if ttl <= 0 then db
    else Db(db.now,
            Put(db.sessions, db.now, s.id, s, ttl),
            Expire(SAdd(db.users, db.now, s.user, s.id), db.now, s.user, ttl),
            Put(db.access, db.now, s.access, s.id, ttl),
            Put(db.refresh, db.now, s.refresh, s.id, ttl))
  }

  function Touch(db: Db, id: Id): Db {
    var s := Find(db, id);
    if s.None? then db
    else db.(sessions := Put(db.sessions, db.now, id, s.value.(lastActivity := db.now), Ttl(db.sessions, db.now, id)))
  }

  function Delete(db: Db, id: Id): Db {
    var s := Find(db, id);
    if s.None? then db
    else Db(db.now,
            Del(db.sessions, id),
            SRem(db.users, db.now, s.value.user, id),
            Del(db.access, s.value.access),
            Del(db.refresh, s.value.refresh))
  }

  function Rotate(db: Db, id: Id, access: string, refresh: string, expiresAt: int): Db {
    var s := Find(db, id);
    var ttl := expiresAt - db.now;
    if s.None? || ttl <= 0 then db
    else
      var s' := s.value.(access := access, refresh := refresh, lastActivity := db.now, expiresAt := expiresAt);
      Db(db.now,
         Put(db.sessions, db.now, id, s', ttl),
         Expire(db.users, db.now, s'.user, ttl),
         Put(Del(db.access, s.value.access), db.now, access, id, ttl),
         Put(Del(db.refresh, s.value.refresh), db.now, refresh, id, ttl))
  }

  /** Listing a user's sessions drops from the user's set an id whose session is gone. */
  function Prune(db: Db, user: Id, id: Id): Db {
    if Find(db, id).None? then db.(users := SRem(db.users, db.now, user, id)) else db
  }

  // ---------- What ties the four keyspaces together ----------

  predicate Indexed(index: Keyspace<string, Id>, token: string, s: Session) {
    token in index && index[token] == Entry(s.id, Some(s.expiresAt))
  }

  /** A live session is filed under its id, and both its tokens lead to it for exactly as long as it lives. */
  predicate SessionSound(db: Db, id: Id) {
    Find(db, id).Some? ==>
      var s := Find(db, id).value;
      && s.id == id && db.sessions[id].expiry == Some(s.expiresAt)
      && Indexed(db.access, s.access, s) && Indexed(db.refresh, s.refresh, s)
  }

  /** A live token leads to a live session that holds it. */
  predicate AccessSound(db: Db, token: string) {
    Get(db.access, db.now, token).Some? ==>
      FindByAccess(db, token).Some? && FindByAccess(db, token).value.access == token
  }

  predicate RefreshSound(db: Db, token: string) {
    Get(db.refresh, db.now, token).Some? ==>
      FindByRefresh(db, token).Some? && FindByRefresh(db, token).value.refresh == token
  }

  /** A user's set names nobody else's session. */
  predicate MemberSound(db: Db, user: Id, id: Id) {
    id in SMembers(db.users, db.now, user) && Find(db, id).Some? ==> Find(db, id).value.user == user
  }

  ghost predicate Coherent(db: Db) {
    && (forall id :: SessionSound(db, id))
    && (forall t :: AccessSound(db, t))
    && (forall t :: RefreshSound(db, t))
    && (forall u, id :: MemberSound(db, u, id))
  }

  /** A live session's id is in its user's set, and the set will not expire before the session. */
  predicate Enrolled(db: Db, id: Id) {
    Find(db, id).Some? ==>
      var s := Find(db, id).value;
      && s.user in db.users && id in db.users[s.user].value
      && (db.users[s.user].expiry.Some? ==> s.expiresAt <= db.users[s.user].expiry.value)
  }

  ghost predicate Complete(db: Db) { forall id :: Enrolled(db, id) }

  /** Under these, an access or a refresh token resolves to exactly the session that holds it now. */
  lemma TokensResolveToHolders(db: Db, token: string, s: Session)
    requires Coherent(db)
    ensures FindByAccess(db, token) == Some(s) <==> Find(db, s.id) == Some(s) && s.access == token
    ensures FindByRefresh(db, token) == Some(s) <==> Find(db, s.id) == Some(s) && s.refresh == token
  {
    assert SessionSound(db, s.id) && AccessSound(db, token) && RefreshSound(db, token);
    var a, r := Get(db.access, db.now, token), Get(db.refresh, db.now, token);
    if a.Some? { assert SessionSound(db, a.value); }
    if r.Some? { assert SessionSound(db, r.value); }
  }

  /** ... and a user's set, less its dead ids, is exactly the user's live sessions. */
  lemma SetIsUsersSessions(db: Db, user: Id, id: Id)
    requires Coherent(db) && Complete(db)
    ensures id in SMembers(db.users, db.now, user) && Find(db, id).Some? <==>
              Find(db, id).Some? && Find(db, id).value.user == user
  {
    assert MemberSound(db, user, id) && Enrolled(db, id) && SessionSound(db, id);
  }

  // ---------- Runs ----------

  datatype Step =
    | Login(session: Session)
    | RotateTokens(id: Id, access: string, refresh: string, expiresAt: int)
    | Activity(id: Id)
    | Destroy(id: Id)
    | Drop(user: Id, id: Id)
    | Tick(seconds: nat)

  /** New ids are new; a new token is new too, but a rotation may keep one or both of the old ones. */
  ghost predicate Fresh(db: Db, step: Step) {
    match step
    case Login(s) =>
      && Find(db, s.id).None? && (forall u :: s.id !in SMembers(db.users, db.now, u))
      && Get(db.access, db.now, s.access).None? && Get(db.refresh, db.now, s.refresh).None?
    case RotateTokens(id, access, refresh, _) =>
      Find(db, id).Some? ==>
        && (access == Find(db, id).value.access || Get(db.access, db.now, access).None?)
        && (refresh == Find(db, id).value.refresh || Get(db.refresh, db.now, refresh).None?)
    case _ => true
  }

  function Next(db: Db, step: Step): Db {
    match step
    case Login(s) => Create(db, s)
    case RotateTokens(id, access, refresh, expiresAt) => Rotate(db, id, access, refresh, expiresAt)
    case Activity(id) => Touch(db, id)
    case Destroy(id) => Delete(db, id)
    case Drop(user, id) => Prune(db, user, id)
    case Tick(seconds) => db.(now := db.now + seconds)
  }

  /** What the same step does to one entry of a plain map of live sessions. */
  function SpecEntry(now: int, entry: Option<Session>, id: Id, step: Step): Option<Session> {
    match step
    case Login(s) => if s.id == id && s.expiresAt > now then Some(s) else entry
    case RotateTokens(j, access, refresh, expiresAt) =>
      if j != id || entry.None? || expiresAt <= now then entry
      else Some(entry.value.(access := access, refresh := refresh, lastActivity := now, expiresAt := expiresAt))
    case Activity(j) => if j == id && entry.Some? then Some(entry.value.(lastActivity := now)) else entry
    case Destroy(j) => if j == id then None else entry
    case Drop(_, _) => entry
    case Tick(seconds) => if entry.Some? && entry.value.expiresAt <= now + seconds then None else entry
  }

  datatype Run = Init(now: int) | Then(before: Run, step: Step)

  function At(run: Run): Db {
    match run
    case Init(now) => Db(now, map[], map[], map[], map[])
    case Then(before, step) => Next(At(before), step)
  }

  ghost predicate Possible(run: Run) {
    run.Then? ==> Possible(run.before) && Fresh(At(run.before), run.step)
  }

  function SpecAt(run: Run, id: Id): Option<Session> {
    match run
    case Init(_) => None
    case Then(before, step) => SpecEntry(At(before).now, SpecAt(before, id), id, step)
  }

  lemma StepRefines(db: Db, step: Step, id: Id)
    requires SessionSound(db, id)
    ensures Find(Next(db, step), id) == SpecEntry(db.now, Find(db, id), id, step)
  {
  }

  lemma StepKeepsSession(db: Db, step: Step, id: Id)
    requires Coherent(db) && Fresh(db, step)
    ensures SessionSound(Next(db, step), id)
  {
    assert SessionSound(db, id);
    if step.RotateTokens? || step.Destroy? || step.Activity? { assert SessionSound(db, step.id); }
  }

  lemma StepKeepsAccess(db: Db, step: Step, token: string)
    requires Coherent(db) && Fresh(db, step)
    ensures AccessSound(Next(db, step), token)
  {
    assert AccessSound(db, token);
    var held := Get(db.access, db.now, token);
    if held.Some? { assert SessionSound(db, held.value); }
    if step.RotateTokens? || step.Destroy? || step.Activity? { assert SessionSound(db, step.id); }
  }

  lemma StepKeepsRefresh(db: Db, step: Step, token: string)
    requires Coherent(db) && Fresh(db, step)
    ensures RefreshSound(Next(db, step), token)
  {
    assert RefreshSound(db, token);
    var held := Get(db.refresh, db.now, token);
    if held.Some? { assert SessionSound(db, held.value); }
    if step.RotateTokens? || step.Destroy? || step.Activity? { assert SessionSound(db, step.id); }
  }

  lemma StepKeepsMember(db: Db, step: Step, user: Id, id: Id)
    requires Coherent(db) && Fresh(db, step)
    ensures MemberSound(Next(db, step), user, id)
  {
    assert MemberSound(db, user, id) && SessionSound(db, id);
    if step.Login? {
      assert step.session.id !in SMembers(db.users, db.now, user);
    } else {
      assert SMembers(Next(db, step).users, Next(db, step).now, user) <= SMembers(db.users, db.now, user);
    }
  }

  lemma StepKeepsCoherent(db: Db, step: Step)
    requires Coherent(db) && Fresh(db, step)
    ensures Coherent(Next(db, step))
  {
    var n := Next(db, step);
    forall id ensures SessionSound(n, id) { StepKeepsSession(db, step, id); }
    forall t ensures AccessSound(n, t) && RefreshSound(n, t) {
      StepKeepsAccess(db, step, t);
      StepKeepsRefresh(db, step, t);
    }
    forall u, id ensures MemberSound(n, u, id) { StepKeepsMember(db, step, u, id); }
  }

  /** Does any live session of this user expire later than this? The one thing a caller must rule out. */
  predicate Outlived(db: Db, id: Id, user: Id, expiresAt: int) {
    Find(db, id).Some? && Find(db, id).value.user == user && expiresAt < Find(db, id).value.expiresAt
  }

  lemma EnrolledAfterCreate(db: Db, s: Session, id: Id)
    requires Coherent(db) && Complete(db) && s.expiresAt > db.now && Fresh(db, Login(s))
    ensures Enrolled(Create(db, s), id) <==> !Outlived(db, id, s.user, s.expiresAt)
  {
    assert Enrolled(db, id) && SessionSound(db, id);
  }

  /**
   Whatever its expiry, creating a session leaves every user's set complete exactly when none of
   the same user's live sessions is due to outlive it.
   */
  lemma CreateKeepsCompleteIff(db: Db, s: Session)
    requires Coherent(db) && Complete(db) && s.expiresAt > db.now && Fresh(db, Login(s))
    ensures Complete(Create(db, s)) <==> forall id :: !Outlived(db, id, s.user, s.expiresAt)
  {
    forall id ensures Enrolled(Create(db, s), id) <==> !Outlived(db, id, s.user, s.expiresAt) {
      EnrolledAfterCreate(db, s, id);
    }
  }

  /** The same for a rotation, which also moves the expiry of the user's set. */
  lemma RotateKeepsCompleteIff(db: Db, id: Id, access: string, refresh: string, expiresAt: int)
    requires Coherent(db) && Complete(db) && expiresAt > db.now && Find(db, id).Some?
    ensures Complete(Rotate(db, id, access, refresh, expiresAt)) <==>
              forall j :: j != id ==> !Outlived(db, j, Find(db, id).value.user, expiresAt)
  {
    assert Enrolled(db, id) && SessionSound(db, id);
    forall j ensures Enrolled(Rotate(db, id, access, refresh, expiresAt), j) <==>
                       (j == id || !Outlived(db, j, Find(db, id).value.user, expiresAt))
    {
      assert Enrolled(db, j) && SessionSound(db, j);
    }
  }

  /** With one lifetime for every login and rotation, nothing live expires later than that from now. */
  predicate WithinLifetime(db: Db, lifetime: int, id: Id) {
    Find(db, id).Some? ==> Find(db, id).value.expiresAt <= db.now + lifetime
  }

  ghost predicate Bounded(db: Db, lifetime: int) { forall id :: WithinLifetime(db, lifetime, id) }

  predicate UsesLifetime(db: Db, lifetime: int, step: Step) {
    && (step.Login? ==> step.session.expiresAt == db.now + lifetime)
    && (step.RotateTokens? ==> step.expiresAt == db.now + lifetime)
  }

  predicate OneLifetime(run: Run, lifetime: int) {
    run.Then? ==> OneLifetime(run.before, lifetime) && UsesLifetime(At(run.before), lifetime, run.step)
  }

  lemma StepKeepsComplete(db: Db, lifetime: int, step: Step)
    requires Coherent(db) && Complete(db) && Bounded(db, lifetime)
    requires Fresh(db, step) && UsesLifetime(db, lifetime, step)
    ensures Complete(Next(db, step)) && Bounded(Next(db, step), lifetime)
  {
    var n := Next(db, step);
    forall id ensures Enrolled(n, id) { StepKeepsEnrolled(db, lifetime, step, id); }
    forall id ensures WithinLifetime(n, lifetime, id) {
      assert SessionSound(db, id) && WithinLifetime(db, lifetime, id);
      StepRefines(db, step, id);
    }
  }

  lemma StepKeepsEnrolled(db: Db, lifetime: int, step: Step, id: Id)
    requires Coherent(db) && Complete(db) && Bounded(db, lifetime)
    requires Fresh(db, step) && UsesLifetime(db, lifetime, step)
    ensures Enrolled(Next(db, step), id)
  {
    assert Enrolled(db, id) && SessionSound(db, id) && WithinLifetime(db, lifetime, id);
    if step.RotateTokens? || step.Destroy? || step.Activity? {
      assert SessionSound(db, step.id) && Enrolled(db, step.id);
    }
  }

  /**
   Over every run the four keyspaces are the plain map of live sessions: the same sessions, and
   (by TokensResolveToHolders) every token resolving to its holder.
   */
  lemma {:induction false} StoreRefinesMap(run: Run)
    requires Possible(run)
    ensures Coherent(At(run))
    ensures forall id :: Find(At(run), id) == SpecAt(run, id)
  {
    if run.Then? {
      StoreRefinesMap(run.before);
      StepKeepsCoherent(At(run.before), run.step);
      forall id ensures Find(At(run), id) == SpecAt(run, id) {
        assert SessionSound(At(run.before), id);
        StepRefines(At(run.before), run.step, id);
      }
    }
  }

  /** Over every run with one lifetime no user's set expires before, or loses, a live session. */
  lemma {:induction false} SetsStayComplete(run: Run, lifetime: int)
    requires Possible(run) && OneLifetime(run, lifetime)
    ensures Complete(At(run)) && Bounded(At(run), lifetime)
  {
    if run.Then? {
      SetsStayComplete(run.before, lifetime);
      StoreRefinesMap(run.before);
      StepKeepsComplete(At(run.before), lifetime, run.step);
    }
  }

  /**
   After a rotation the new tokens resolve to the session and a token it replaced to nothing, even if
   only one changed.
   */
  lemma RotationRetiresTokens(db: Db, id: Id, access: string, refresh: string, expiresAt: int)
    requires Coherent(db) && Find(db, id).Some? && expiresAt > db.now
    requires Fresh(db, RotateTokens(id, access, refresh, expiresAt))
    ensures var n, s := Rotate(db, id, access, refresh, expiresAt), Find(db, id).value;
            && (s.access != access ==> FindByAccess(n, s.access) == None)
            && (s.refresh != refresh ==> FindByRefresh(n, s.refresh) == None)
            && FindByAccess(n, access) == FindByRefresh(n, refresh) == Find(n, id)
            && Find(n, id) == Some(
                 s.(access := access, refresh := refresh, lastActivity := db.now, expiresAt := expiresAt))
  {
  }

  /** With two lifetimes a user's set can expire first: a later, shorter login hides the earlier session. */
  lemma ShorterLoginHides()
    ensures exists db: Db, s: Session :: Coherent(db) && Complete(db) && s.expiresAt > db.now
              && Fresh(db, Login(s)) && !Complete(Create(db, s))
  {
    var s0, s1 := Session("0", "u", "a0", "r0", 0, 10), Session("1", "u", "a1", "r1", 0, 5);
    var run := Then(Init(0), Login(s0));
    var db := At(run);
    StoreRefinesMap(run);
    SetsStayComplete(run, 10);
    OneSessionStored(s0);
    SecondIsFresh(db, s0, s1);
    SecondHides(db, s0, s1);
  }

  lemma SecondHides(db: Db, s: Session, t: Session)
    requires Coherent(db) && Complete(db) && Fresh(db, Login(t)) && Find(db, s.id) == Some(s)
    requires s.user == t.user && db.now < t.expiresAt < s.expiresAt
    ensures !Complete(Create(db, t))
  {
    assert Outlived(db, s.id, t.user, t.expiresAt);
    CreateKeepsCompleteIff(db, t);
  }

  lemma OneSessionStored(s: Session)
    requires s.expiresAt > 0
    ensures var db := At(Then(Init(0), Login(s)));
            && db.now == 0 && Find(db, s.id) == Some(s)
            && db.access.Keys == {s.access} && db.refresh.Keys == {s.refresh} && db.sessions.Keys == {s.id}
            && forall u :: SMembers(db.users, db.now, u) <= {s.id}
  {
    assert At(Init(0)) == Db(0, map[], map[], map[], map[]);
  }

  lemma SecondIsFresh(db: Db, s: Session, t: Session)
    requires db.access.Keys == {s.access} && db.refresh.Keys == {s.refresh} && db.sessions.Keys == {s.id}
    requires forall u :: SMembers(db.users, db.now, u) <= {s.id}
    requires t.id != s.id && t.access != s.access && t.refresh != s.refresh
    ensures Fresh(db, Login(t))
  {
  }
}
