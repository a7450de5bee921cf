/** The session repository and service as they run: the store is a field, listing and bulk deletion are loops. */
module SessionService {
  import opened Wrappers
  import opened Redis
  import opened Sessions

  lemma DropKeeps(db: Db, user: Id, id: Id)
    requires Coherent(db) && Complete(db)
    ensures var n := Prune(db, user, id);
            Coherent(n) && Complete(n) && forall j :: Find(n, j) == Find(db, j)
  {
    StepKeepsCoherent(db, Drop(user, id));
    forall j ensures Enrolled(Prune(db, user, id), j) { assert Enrolled(db, j) && SessionSound(db, j); }
  }

  lemma DeleteKeeps(db: Db, id: Id)
    requires Coherent(db) && Complete(db)
    ensures var n := Delete(db, id);
            && Coherent(n) && Complete(n) && n.now == db.now
            && forall j :: Find(n, j) == if j == id then None else Find(db, j)
  {
    StepKeepsCoherent(db, Destroy(id));
    assert SessionSound(db, id);
    forall j ensures Enrolled(Delete(db, id), j) && Find(Delete(db, id), j) == if j == id then None else Find(db, j) {
      assert Enrolled(db, j) && SessionSound(db, j);
    }
  }

  predicate IsUsers(db: Db, user: Id, id: Id) {
    Find(db, id).Some? && Find(db, id).value.user == user
  }

  predicate Lists(sessions: seq<Session>, id: Id) { exists k :: 0 <= k < |sessions| && sessions[k].id == id }

  lemma OneMoreListed(sessions: seq<Session>, s: Session)
    ensures forall id :: Lists(sessions + [s], id) <==> s.id == id || Lists(sessions, id)
  {
    var more := sessions + [s];
    assert more[|sessions|] == s;
    forall id | Lists(sessions, id) ensures Lists(more, id) {
      var k :| 0 <= k < |sessions| && sessions[k].id == id;
      assert more[k].id == id;
    }
  }

  class SessionRepository {
    var db: Db

    constructor (now: int)
      ensures db == At(Init(now)) && Coherent(db) && Complete(db)
    {
      db := Db(now, map[], map[], map[], map[]);
    }

    /** Exactly the user's live sessions, each once; ids of dead sessions leave the user's set. */
    method GetByUserID(user: Id) returns (sessions: seq<Session>)
      requires Coherent(db) && Complete(db)
      modifies this
      ensures Coherent(db) && Complete(db) && db.now == old(db.now)
      ensures forall id :: Find(db, id) == Find(old(db), id)
      ensures forall k :: 0 <= k < |sessions| ==>
          Find(db, sessions[k].id) == Some(sessions[k]) && sessions[k].user == user
      ensures forall j, k :: 0 <= j < k < |sessions| ==> sessions[j].id != sessions[k].id
      ensures forall id :: IsUsers(db, user, id) ==> Lists(sessions, id)
      ensures forall id :: id in SMembers(db.users, db.now, user) ==> IsUsers(db, user, id)
    {
      sessions := [];
      var todo := SMembers(db.users, db.now, user);
      forall id ensures IsUsers(db, user, id) ==> id in todo { SetIsUsersSessions(db, user, id); }
      while todo != {}
        invariant Coherent(db) && Complete(db) && db.now == old(db.now)
        invariant forall id :: Find(db, id) == Find(old(db), id)
        invariant forall id :: id in SMembers(db.users, db.now, user) ==> id in todo || IsUsers(db, user, id)
        invariant forall k :: 0 <= k < |sessions| ==>
                    && sessions[k].id !in todo && sessions[k].user == user
                    && Find(db, sessions[k].id) == Some(sessions[k])
        invariant forall j, k :: 0 <= j < k < |sessions| ==> sessions[j].id != sessions[k].id
        invariant forall id :: IsUsers(db, user, id) ==> id in todo || Lists(sessions, id)
        invariant todo <= SMembers(old(db).users, db.now, user)
        decreases todo
      {
        var id :| id in todo;
        todo := todo - {id};
        var session := Find(db, id);
        if session.None? {
          DropKeeps(db, user, id);
          db := db.(users := SRem(db.users, db.now, user, id));
        } else {
          assert MemberSound(old(db), user, id) && SessionSound(old(db), id);
          OneMoreListed(sessions, session.value);
          sessions := sessions + [session.value];
        }
      }
    }

    method Delete(id: Id) returns (ok: bool)
      requires Coherent(db) && Complete(db)
      modifies this
      ensures Coherent(db) && Complete(db) && db.now == old(db.now)
      ensures ok <==> Find(old(db), id).Some?
      ensures forall j :: Find(db, j) == if j == id then None else Find(old(db), j)
    {
      DeleteKeeps(db, id);
      var session := Find(db, id);
      if session.None? { return false; }
      var s := session.value;
      db := db.(sessions := Del(db.sessions, id));
      db := db.(users := SRem(db.users, db.now, s.user, id));
      db := db.(access := Del(db.access, s.access));
      db := db.(refresh := Del(db.refresh, s.refresh));
      return true;
    }

    /** None of the user's sessions is left and everyone else's is untouched. */
    method DeleteByUserID(user: Id)
      requires Coherent(db) && Complete(db)
      modifies this
      ensures Coherent(db) && Complete(db)
      ensures forall id :: Find(db, id) == if IsUsers(old(db), user, id) then None else Find(old(db), id)
    {
      var sessions := GetByUserID(user);
      forall id
        ensures Lists(sessions, id) <==> IsUsers(old(db), user, id)
      {
        assert IsUsers(db, user, id) <==> IsUsers(old(db), user, id);
      }
      for n := 0 to |sessions|
        invariant Coherent(db) && Complete(db) && db.now == old(db.now)
        invariant forall id :: Find(db, id) ==
                    if exists k :: 0 <= k < n && sessions[k].id == id then None else Find(old(db), id)
      {
        var _ := Delete(sessions[n].id);
      }
    }

    method RotateTokens(id: Id, access: string, refresh: string, expiresAt: int) returns (ok: bool)
      modifies this
      ensures ok <==> Find(old(db), id).Some? && expiresAt > old(db).now
      ensures db == Rotate(old(db), id, access, refresh, expiresAt)
    {
      var found := Find(db, id);
      if found.None? { return false; }
      var session := found.value;
      var oldAccess, oldRefresh := session.access, session.refresh;
      session := session.(access := access);
      session := session.(refresh := refresh);
      session := session.(lastActivity := db.now);
      session := session.(expiresAt := expiresAt);
      var ttl := expiresAt - db.now;
      if ttl <= 0 { return false; }
      db := db.(access := Del(db.access, oldAccess));
      db := db.(refresh := Del(db.refresh, oldRefresh));
      db := db.(sessions := Put(db.sessions, db.now, id, session, ttl));
      db := db.(access := Put(db.access, db.now, access, id, ttl));
      db := db.(refresh := Put(db.refresh, db.now, refresh, id, ttl));
      db := db.(users := Expire(db.users, db.now, session.user, ttl));
      return true;
    }

    /**
     The service's validation: it succeeds exactly on an access token that a live session holds,
     moves that session's activity and nothing else; its own expiry test never fires.
     */
    method ValidateSession(token: string) returns (r: Option<Session>)
      requires Coherent(db)
      modifies this
      ensures r == FindByAccess(old(db), token)
      ensures r.Some? ==> r.value.expiresAt > db.now && db == Touch(old(db), r.value.id)
      ensures r.None? ==> db == old(db)
    {
      r := FindByAccess(db, token);
      if r.None? { return; }
      assert AccessSound(db, token) && SessionSound(db, r.value.id) && SessionSound(db, db.access[token].value);
      if db.now > r.value.expiresAt {
        assert false;
      }
      var session := Find(db, r.value.id).value;
      session := session.(lastActivity := db.now);
      db := db.(sessions := Put(db.sessions, db.now, session.id, session, Ttl(db.sessions, db.now, session.id)));
    }

    /** Only the current session of the user is left, and everyone else's are untouched. */
    method DestroyOtherSessions(user: Id, current: Id)
      requires Coherent(db) && Complete(db)
      modifies this
      ensures Coherent(db) && Complete(db)
      ensures forall id :: Find(db, id)
                == if IsUsers(old(db), user, id) && id != current then None else Find(old(db), id)
    {
      var sessions := GetByUserID(user);
      forall id
        ensures Lists(sessions, id) <==> IsUsers(old(db), user, id)
      {
        assert IsUsers(db, user, id) <==> IsUsers(old(db), user, id);
      }
      for n := 0 to |sessions|
        invariant Coherent(db) && Complete(db) && db.now == old(db.now)
        invariant forall id :: Find(db, id) ==
                    if id != current && exists k :: 0 <= k < n && sessions[k].id == id then None else Find(old(db), id)
      {
        if sessions[n].id != current {
          var _ := Delete(sessions[n].id);
        }
      }
    }

    /** Logging out by access token ends the session that holds it, so neither of its tokens resolves any more. */
    method DestroySessionByToken(token: string) returns (ok: bool)
      requires Coherent(db) && Complete(db)
      modifies this
      ensures Coherent(db) && Complete(db)
      ensures ok <==> FindByAccess(old(db), token).Some?
      ensures ok ==> FindByAccess(db, token).None?
      ensures ok ==> FindByRefresh(db, FindByAccess(old(db), token).value.refresh).None?
      ensures forall j :: Find(db, j) ==
                if ok && j == FindByAccess(old(db), token).value.id then None else Find(old(db), j)
    {
      var session := FindByAccess(db, token);
      if session.None? { return false; }
      assert AccessSound(db, token) && SessionSound(db, db.access[token].value);
      ok := Delete(session.value.id);
      var refresh := session.value.refresh;
      assert AccessSound(db, token) && RefreshSound(db, refresh);
      forall s ensures FindByAccess(db, token) != Some(s) && FindByRefresh(db, refresh) != Some(s) {
        TokensResolveToHolders(old(db), token, s);
        TokensResolveToHolders(old(db), refresh, s);
        TokensResolveToHolders(db, token, s);
        TokensResolveToHolders(db, refresh, s);
        assert SessionSound(old(db), session.value.id);
      }
    }
  }
}
