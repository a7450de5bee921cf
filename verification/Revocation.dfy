/**
 Token revocation: a blacklist whose expired rows are purged by every later logout, the
 access check that consults it, and refresh calls that revoke the token they spend.
 A signed token is its claims; per section 4.1.4 of RFC 7519 it is not accepted on or after its expiry.
 */
module Revocation {
  import opened Wrappers

  datatype Token = Token(id: string, signed: bool, refresh: bool, expiresAt: Option<int>)

  /** `JwtClaim` */
  predicate Valid(token: Token, now: int) {
    token.signed && (token.expiresAt.Some? ==> now < token.expiresAt.value)
  }

  /** `JwtExpiresAt`: nothing for a token that is no longer valid or that never expires. */
  function ExpiresAt(token: Token, now: int): Option<int> {
    if Valid(token, now) then token.expiresAt else None
  }

  type Blacklist = map<Token, int>

  function Purged(rows: Blacklist, now: int): Blacklist {
    map t | t in rows && now < rows[t] :: rows[t]
  }

  /**
   `LogoutUser` as one step: purge, then insert; the token column is unique, and a refused insert
   leaves the purge done.
   */
  function LogoutUser(rows: Blacklist, now: int, token: Token): (Blacklist, bool) {
    var exp := ExpiresAt(token, now);
    if exp.None? then (rows, false)
    else if token in Purged(rows, now) then (Purged(rows, now), false)
    else (Purged(rows, now)[token := exp.value], true)
  }

  /** `AuthMiddleware` */
  predicate Accepts(rows: Blacklist, now: int, token: Token) {
    Valid(token, now) && !token.refresh && token !in rows
  }

  class AuthService {
    var rows: Blacklist

    constructor ()
      ensures rows == map[]
    {
      rows := map[];
    }

    method DeleteExpired(now: int)
      modifies this
      ensures rows == Purged(old(rows), now)
    {
      var todo := rows.Keys;
      while todo != {}
        invariant todo <= rows.Keys <= old(rows).Keys
        invariant forall t :: t in rows ==> rows[t] == old(rows)[t] && (t in todo || now < rows[t])
        invariant forall t :: t in old(rows) && now < old(rows)[t] ==> t in rows
        decreases todo
      {
        var t :| t in todo;
        todo := todo - {t};
        if rows[t] <= now { rows := rows - {t}; }
      }
    }

    method Logout(now: int, token: Token) returns (ok: bool)
      modifies this
      ensures (rows, ok) == LogoutUser(old(rows), now, token)
    {
      var expiresAt := ExpiresAt(token, now);
      if expiresAt.None? { return false; }
      DeleteExpired(now);
      if token in rows { return false; }
      rows := rows[token := expiresAt.value];
      return true;
    }
  }

  // ---------- Runs: logouts, interleaved refresh calls, time ----------

  /** A refresh call between its checks, its session lookup, its rotation and its revocation. */
  datatype Call = Checked(token: Token) | Found(token: Token) | Rotated(token: Token) | Answered(token: Token, ok: bool)

  datatype System = System(now: int, rows: Blacklist, calls: map<nat, Call>)

  datatype Step =
    | Logout(token: Token)
    | Check(call: nat, token: Token)
    | FindSession(call: nat, found: bool)
    | Rotate(call: nat, ok: bool)
    | Revoke(call: nat)
    | Tick(seconds: nat)

  predicate Enabled(s: System, step: Step) {
    match step
    case Check(call, _) => call !in s.calls
    case FindSession(call, _) => call in s.calls && s.calls[call].Checked?
    case Rotate(call, _) => call in s.calls && s.calls[call].Found?
    case Revoke(call) => call in s.calls && s.calls[call].Rotated?
    case _ => true
  }

  function Next(s: System, step: Step): System
    requires Enabled(s, step)
  {
    match step
    case Logout(token) => s.(rows := LogoutUser(s.rows, s.now, token).0)
    case Check(call, token) =>
      s.(calls := s.calls[call :=
        if Valid(token, s.now) && token.refresh && token !in s.rows then Checked(token) else Answered(token, false)])
    case FindSession(call, found) =>
      var token := s.calls[call].token;
      s.(calls := s.calls[call := if found then Found(token) else Answered(token, false)])
    case Rotate(call, ok) =>
      var token := s.calls[call].token;
      s.(calls := s.calls[call := if ok then Rotated(token) else Answered(token, false)])
    case Revoke(call) =>
      var token := s.calls[call].token;
      var (rows, ok) := LogoutUser(s.rows, s.now, token);
      s.(rows := rows, calls := s.calls[call := Answered(token, ok)])
    case Tick(seconds) => s.(now := s.now + seconds)
  }

  datatype Run = Init(now: int) | Then(before: Run, step: Step)

  predicate Possible(run: Run)
    decreases run, 0
  {
    run.Then? ==> Possible(run.before) && Enabled(At(run.before), run.step)
  }

  function At(run: Run): System
    requires Possible(run)
    decreases run, 1
  {
    match run
    case Init(now) => System(now, map[], map[])
    case Then(before, step) => Next(At(before), step)
  }

  /** The token a step tries to revoke. */
  function Target(s: System, step: Step): Option<Token>
    requires Enabled(s, step)
  {
    match step
    case Logout(token) => Some(token)
    case Revoke(call) => Some(s.calls[call].token)
    case _ => None
  }

  /** How often the token was revoked with success. */
  function Revocations(run: Run, token: Token): nat
    requires Possible(run)
  {
    match run
    case Init(_) => 0
    case Then(before, step) =>
      var s := At(before);
      Revocations(before, token) + if Target(s, step) == Some(token) && LogoutUser(s.rows, s.now, token).1 then 1 else 0
  }

  /** How many refresh calls with the token reported success. */
  function Refreshes(run: Run, token: Token): nat
    requires Possible(run)
  {
    match run
    case Init(_) => 0
    case Then(before, step) =>
      Refreshes(before, token)
      + if step.Revoke? && Target(At(before), step) == Some(token) && At(run).calls[step.call] == Answered(token, true)
        then 1 else 0
  }

  /**
   A token is revoked at most once, a row is in the blacklist only for a revoked token and under
   its own expiry, and the row of a revoked token is gone only once the token has expired.
   */
  predicate Kept(s: System, token: Token, revocations: nat) {
    && revocations <= 1
    && (token in s.rows ==> revocations == 1 && token.expiresAt == Some(s.rows[token]))
    && (revocations == 1 ==> token.expiresAt.Some? && (token in s.rows || token.expiresAt.value <= s.now))
  }

  lemma {:induction false} AlwaysKept(run: Run, token: Token)
    requires Possible(run)
    ensures Kept(At(run), token, Revocations(run, token))
  {
    if run.Then? { AlwaysKept(run.before, token); }
  }

  /**
   At any moment of any run a token is accepted exactly when it is signed, before its expiry if it
   has one, an access token, and never revoked: purging brings no revoked token back, and nothing
   else is rejected.
   */
  lemma AcceptedIffNeverRevoked(run: Run, token: Token)
    requires Possible(run)
    ensures Accepts(At(run).rows, At(run).now, token) <==>
              && token.signed && (token.expiresAt.Some? ==> At(run).now < token.expiresAt.value)
              && !token.refresh && Revocations(run, token) == 0
  {
    AlwaysKept(run, token);
  }

  /**
   However refresh calls interleave with each other and with logouts, at most one success per token,
   logouts included.
   */
  lemma {:induction false} RefreshedAtMostOnce(run: Run, token: Token)
    requires Possible(run)
    ensures Refreshes(run, token) <= Revocations(run, token) <= 1
  {
    AlwaysKept(run, token);
    if run.Then? { RefreshedAtMostOnce(run.before, token); }
  }

  /** Right after a logout that got as far as the table, it holds exactly the revoked tokens that are still valid. */
  lemma BlacklistIsMinimal(run: Run, spent: Token, token: Token)
    requires Possible(run) && ExpiresAt(spent, At(run).now).Some?
    ensures var after := Then(run, Logout(spent));
            token in At(after).rows <==>
              Revocations(after, token) == 1 && token.expiresAt.Some? && At(after).now < token.expiresAt.value
  {
    AlwaysKept(Then(run, Logout(spent)), token);
    AlwaysKept(run, token);
  }

  // ---------- What spends a token ----------

  /**
   A token without a signature, or at or past its expiry, or that never expires, revokes nothing and
   writes nothing.
   */
  lemma WorthlessTokenRevokesNothing(rows: Blacklist, now: int, token: Token)
    requires !token.signed || token.expiresAt.None? || token.expiresAt.value <= now
    ensures LogoutUser(rows, now, token) == (rows, false)
  {
  }

  /** Any other is revoked by a first logout and refused by a second, whenever that comes. */
  lemma SecondLogoutIsRefused(rows: Blacklist, now: int, later: int, token: Token)
    requires token.signed && token.expiresAt.Some? && now < token.expiresAt.value && now <= later && token !in rows
    ensures var (first, ok) := LogoutUser(rows, now, token);
            ok && first[token] == token.expiresAt.value && !LogoutUser(first, later, token).1
    ensures !Accepts(LogoutUser(rows, now, token).0, later, token)
  {
  }

  /** What a refresh call with this token has come to. */
  predicate CallSound(s: System, call: nat)
    requires call in s.calls
  {
    match s.calls[call]
    case Answered(token, ok) => ok ==> token.signed && token.refresh && token.expiresAt.Some?
    case c => c.token.signed && c.token.refresh
  }

  /** Only a signed refresh token that can expire ever brings a refresh call to success. */
  lemma {:induction false} SuccessNeedsRefreshToken(run: Run, call: nat)
    requires Possible(run) && call in At(run).calls
    ensures CallSound(At(run), call)
  {
    if run.Then? && call in At(run.before).calls { SuccessNeedsRefreshToken(run.before, call); }
  }
}
