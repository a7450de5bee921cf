/**
 Registration codes: four expiring keys per e-mail address (the code, the guesses made, the
 cooldown, the sends counted) against the simple form they implement: one challenge that is
 open until it expires, is guessed, or has used up its guesses.

 Calls are sequential, Redis calls succeed, and addresses are already sanitised.
 */
module Otp {
  import opened Wrappers
  import opened Redis
  import opened Counters
  import opened Strings

  type Email = string

  datatype Config = Config(ttl: int, cooldown: int, rateLimit: int, rateWindow: int, maxAttempts: int)

  datatype State = State(
    codes: Keyspace<Email, string>, attempts: Keyspace<Email, int>,
    cooldowns: Keyspace<Email, string>, sends: Keyspace<Email, int>)

  datatype SendResult = Sent | NoAddress | Cooldown(retryAfter: int) | RateLimited | DeliveryFailed

  datatype VerifyResult = Verified | Invalid | TooManyAttempts

  predicate RateLimits(c: Config) { c.rateLimit > 0 && c.rateWindow > 0 }

  function Forgotten(s: State, email: Email): State {
    State(Del(s.codes, email), Del(s.attempts, email), Del(s.cooldowns, email), Del(s.sends, email))
  }

  function Send(s: State, c: Config, now: int, email: Email, code: string, delivered: bool): (State, SendResult) {
    if email == "" then (s, NoAddress)
    else if Ttl(s.cooldowns, now, email) > 0 then (s, Cooldown(Ttl(s.cooldowns, now, email)))
    else
      var s1 := if RateLimits(c) then s.(sends := Count(s.sends, now, email, c.rateWindow)) else s;
      if RateLimits(c) && s1.sends[email].value > c.rateLimit then (s1, RateLimited)
      else
        var s2 := s1.(codes := Put(s1.codes, now, email, code, c.ttl),
                      attempts := Del(s1.attempts, email),
                      cooldowns := Put(s1.cooldowns, now, email, "1", c.cooldown));
        if delivered then (s2, Sent) else (Forgotten(s2, email), DeliveryFailed)
  }

  function Dropped(s: State, email: Email): State {
    s.(codes := Del(s.codes, email), attempts := Del(s.attempts, email))
  }

  function Verify(s: State, c: Config, now: int, email: Email, guess: string): (State, VerifyResult) {
    VerifyClean(s, c, now, email, Trim(guess))
  }

  function VerifyClean(s: State, c: Config, now: int, email: Email, clean: string): (State, VerifyResult) {
    var code := Get(s.codes, now, email);
    if email == "" || clean == "" || code.None? then (s, Invalid)
    else
      var s1 := s.(attempts := Count(s.attempts, now, email, c.ttl));
      var attempts := s1.attempts[email].value;
      if c.maxAttempts > 0 && attempts > c.maxAttempts then (Dropped(s1, email), TooManyAttempts)
      else if clean != code.value then
        if c.maxAttempts > 0 && attempts >= c.maxAttempts then (Dropped(s1, email), TooManyAttempts) else (s1, Invalid)
      else (Forgotten(s1, email), Verified)
  }

  class Service {
    var state: State
    const config: Config

    constructor (config: Config)
      ensures state == State(map[], map[], map[], map[]) && this.config == config
    {
      this.state, this.config := State(map[], map[], map[], map[]), config;
    }

    method SendRegisterOTP(now: int, email: Email, code: string, delivered: bool) returns (r: SendResult)
      modifies this`state
      ensures (state, r) == Send(old(state), config, now, email, code, delivered)
    {
      if email == "" { return NoAddress; }
      var cooldownTtl := Ttl(state.cooldowns, now, email);
      if cooldownTtl > 0 { return Cooldown(cooldownTtl); }
      if config.rateLimit > 0 && config.rateWindow > 0 {
        state := state.(sends := Count(state.sends, now, email, config.rateWindow));
        if state.sends[email].value > config.rateLimit { return RateLimited; }
      }
      state := state.(codes := Put(state.codes, now, email, code, config.ttl));
      state := state.(attempts := Del(state.attempts, email));
      state := state.(cooldowns := Put(state.cooldowns, now, email, "1", config.cooldown));
      if !delivered {
        state := Forgotten(state, email);
        return DeliveryFailed;
      }
      return Sent;
    }

    method VerifyRegisterOTP(now: int, email: Email, guess: string) returns (r: VerifyResult)
      modifies this`state
      ensures (state, r) == Verify(old(state), config, now, email, guess)
    {
      var clean := Trim(guess);
      if email == "" || clean == "" { return Invalid; }
      var hashed := Get(state.codes, now, email);
      if hashed.None? { return Invalid; }
      state := state.(attempts := Count(state.attempts, now, email, config.ttl));
      var attempts := state.attempts[email].value;
      if config.maxAttempts > 0 && attempts > config.maxAttempts {
        state := Dropped(state, email);
        return TooManyAttempts;
      }
      if clean != hashed.value {
        if config.maxAttempts > 0 && attempts >= config.maxAttempts {
          state := Dropped(state, email);
          return TooManyAttempts;
        }
        return Invalid;
      }
      state := Forgotten(state, email);
      return Verified;
    }
  }

  // ---------- Runs ----------

  datatype Run =
    | Start
    | Sending(before: Run, time: int, email: Email, code: string, delivered: bool)
    | Guessing(before: Run, time: int, email: Email, guess: string)

  predicate Ordered(run: Run) {
    !run.Start? ==> Ordered(run.before) && (!run.before.Start? ==> run.before.time <= run.time)
  }

  function At(run: Run, c: Config): State {
    match run
    case Start => State(map[], map[], map[], map[])
    case Sending(before, time, email, code, delivered) => Send(At(before, c), c, time, email, code, delivered).0
    case Guessing(before, time, email, guess) => Verify(At(before, c), c, time, email, guess).0
  }

  function Answer(run: Run, c: Config): VerifyResult
    requires run.Guessing?
  {
    Verify(At(run.before, c), c, run.time, run.email, run.guess).1
  }

  /** Did the last call store a new code? It may fail to be delivered afterwards. */
  predicate Stored(run: Run, c: Config, email: Email)
    requires run.Sending?
  {
    var r := Send(At(run.before, c), c, run.time, run.email, run.code, run.delivered).1;
    run.email == email && (r.Sent? || r.DeliveryFailed?)
  }

  /** Did the last guess get as far as the comparison with the stored code? */
  predicate Compared(run: Run, c: Config, email: Email)
    requires run.Guessing?
  {
    var s := At(run.before, c);
    && run.email == email && email != "" && Trim(run.guess) != "" && Get(s.codes, run.time, email).Some?
    && !(c.maxAttempts > 0 && Count(s.attempts, run.time, email, c.ttl)[email].value > c.maxAttempts)
  }

  // ---------- The simple form ----------

  datatype Challenge = Challenge(code: string, deadline: Option<int>, guesses: nat)

  predicate IsOpen(ch: Option<Challenge>, now: int) {
    ch.Some? && (ch.value.deadline.None? || now < ch.value.deadline.value)
  }

  function Guess(
    ch: Option<Challenge>, c: Config, now: int, email: Email, guess: string): (Option<Challenge>, VerifyResult)
  {
    GuessClean(ch, c, now, email, Trim(guess))
  }

  function GuessClean(
    ch: Option<Challenge>, c: Config, now: int, email: Email, clean: string): (Option<Challenge>, VerifyResult)
  {
    if email == "" || clean == "" || !IsOpen(ch, now) then (ch, Invalid)
    else if clean == ch.value.code then (None, Verified)
    else if c.maxAttempts > 0 && ch.value.guesses + 1 >= c.maxAttempts then (None, TooManyAttempts)
    else (Some(ch.value.(guesses := ch.value.guesses + 1)), Invalid)
  }

  function ChallengeAt(run: Run, c: Config, email: Email): Option<Challenge> {
    match run
    case Start => None
    case Sending(before, time, e, code, delivered) =>
      if !Stored(run, c, email) then ChallengeAt(before, c, email)
      else if delivered then Some(Challenge(code, Deadline(time, c.ttl), 0))
      else None
    case Guessing(before, time, e, guess) =>
      if e == email then Guess(ChallengeAt(before, c, email), c, time, email, guess).0
      else ChallengeAt(before, c, email)
  }

  /**
   The stored keys at a moment, given the open challenge. The guess counter was started no earlier
   than the code, so it is still there, with the right number, for as long as the code is.
   */
  predicate Tracks(s: State, c: Config, email: Email, now: int, ch: Option<Challenge>) {
    if !IsOpen(ch, now) then Get(s.codes, now, email).None?
    else
      && email in s.codes && s.codes[email] == Entry(ch.value.code, ch.value.deadline)
      && (c.maxAttempts > 0 ==> ch.value.guesses < c.maxAttempts)
      && (ch.value.deadline.Some? <==> c.ttl > 0)
      && (c.ttl > 0 ==> ch.value.deadline.value <= now + c.ttl)
      && if ch.value.guesses == 0 then email !in s.attempts
         else
           && email in s.attempts && s.attempts[email].value == ch.value.guesses
           && (s.attempts[email].expiry.Some? <==> c.ttl > 0)
           && (c.ttl > 0 ==> ch.value.deadline.value <= s.attempts[email].expiry.value)
  }

  lemma SendTracks(
    s: State, c: Config, time: int, e: Email, code: string, delivered: bool,
    email: Email, now: int, ch: Option<Challenge>)
    requires Tracks(s, c, email, now, ch) && time <= now
    ensures var (n, r) := Send(s, c, time, e, code, delivered);
            Tracks(n, c, email, now,
                   if e != email || !(r.Sent? || r.DeliveryFailed?) then ch
                   else if delivered then Some(Challenge(code, Deadline(time, c.ttl), 0)) else None)
  {
  }

  lemma CountingTracks(s: State, c: Config, email: Email, now: int, ch: Option<Challenge>)
    requires Tracks(s, c, email, now, ch) && IsOpen(ch, now)
    ensures var counted := Count(s.attempts, now, email, c.ttl);
            && email in counted && counted[email].value == ch.value.guesses + 1
            && (counted[email].expiry.Some? <==> c.ttl > 0)
            && (c.ttl > 0 ==> ch.value.deadline.value <= counted[email].expiry.value)
  {
  }

  lemma OthersVerifyTracks(
    s: State, c: Config, time: int, e: Email, clean: string, email: Email, now: int, ch: Option<Challenge>)
    requires Tracks(s, c, email, now, ch) && e != email
    ensures Tracks(VerifyClean(s, c, time, e, clean).0, c, email, now, ch)
  {
    var counted := Count(s.attempts, time, e, c.ttl);
    assert email in counted <==> email in s.attempts;
    assert email in counted ==> counted[email] == s.attempts[email];
  }

  lemma VerifyTracks(s: State, c: Config, time: int, clean: string, email: Email, now: int, ch: Option<Challenge>)
    requires Tracks(s, c, email, time, ch) && Tracks(s, c, email, now, ch) && time <= now
    ensures Tracks(VerifyClean(s, c, time, email, clean).0, c, email, now, GuessClean(ch, c, time, email, clean).0)
  {
    if IsOpen(ch, time) {
      CountingTracks(s, c, email, time, ch);
      assert Get(s.codes, time, email) == Some(ch.value.code);
    }
  }

  lemma {:induction false} StateTracksChallenge(run: Run, c: Config, email: Email, now: int)
    requires Ordered(run) && (!run.Start? ==> run.time <= now)
    ensures Tracks(At(run, c), c, email, now, ChallengeAt(run, c, email))
  {
    if !run.Start? {
      var s, ch := At(run.before, c), ChallengeAt(run.before, c, email);
      StateTracksChallenge(run.before, c, email, run.time);
      StateTracksChallenge(run.before, c, email, now);
      match run
      case Sending(_, time, e, code, delivered) => SendTracks(s, c, time, e, code, delivered, email, now, ch);
      case Guessing(_, time, e, guess) =>
        if e == email { VerifyTracks(s, c, time, Trim(guess), email, now, ch); }
        else { OthersVerifyTracks(s, c, time, e, Trim(guess), email, now, ch); }
    }
  }

  /**
   Every answer over every run is the simple form's; in particular the branch for a counter
   already above the maximum is never taken.
   */
  lemma AnswersAreTheChallenges(run: Run, c: Config)
    requires Ordered(run) && run.Guessing?
    ensures Answer(run, c) == Guess(ChallengeAt(run.before, c, run.email), c, run.time, run.email, run.guess).1
    ensures (run.email != "" && Trim(run.guess) != "" && Get(At(run.before, c).codes, run.time, run.email).Some?)
            ==> Compared(run, c, run.email)
  {
    StateTracksChallenge(run.before, c, run.email, run.time);
  }

  /** Comparisons made against the last code stored for an address. */
  function Guesses(run: Run, c: Config, email: Email): nat {
    match run
    case Start => 0
    case Sending(before, _, _, _, _) => if Stored(run, c, email) then 0 else Guesses(before, c, email)
    case Guessing(before, _, _, _) => Guesses(before, c, email) + if Compared(run, c, email) then 1 else 0
  }

  /** Comparisons among them that succeeded. */
  function Successes(run: Run, c: Config, email: Email): nat {
    match run
    case Start => 0
    case Sending(before, _, _, _, _) => if Stored(run, c, email) then 0 else Successes(before, c, email)
    case Guessing(before, _, _, _) =>
      Successes(before, c, email) + if Compared(run, c, email) && Answer(run, c).Verified? then 1 else 0
  }

  /**
   However calls are timed, at most `maxAttempts` guesses are compared against one stored code, if
   the maximum is positive, and at most one of them succeeds, with or without a maximum: after it
   nothing is left to compare with.
   */
  lemma {:induction false} GuessesAreLimited(run: Run, c: Config, email: Email)
    requires Ordered(run)
    ensures var ch := ChallengeAt(run, c, email);
            && (ch.Some? ==> Guesses(run, c, email) == ch.value.guesses && Successes(run, c, email) == 0)
            && (ch.Some? && c.maxAttempts > 0 ==> ch.value.guesses < c.maxAttempts)
    ensures c.maxAttempts > 0 ==> Guesses(run, c, email) <= c.maxAttempts
    ensures Successes(run, c, email) <= 1
  {
    if !run.Start? {
      GuessesAreLimited(run.before, c, email);
      StateTracksChallenge(run.before, c, email, run.time);
    }
  }

  // ---------- How often codes are sent ----------

  /** When the last code was delivered to an address, unless a verification has spent it. */
  function LastSent(run: Run, c: Config, email: Email): Option<int> {
    match run
    case Start => None
    case Sending(before, time, _, _, delivered) =>
      if !Stored(run, c, email) then LastSent(before, c, email) else if delivered then Some(time) else None
    case Guessing(before, _, _, _) => if Spent(run, c, email) then None else LastSent(before, c, email)
  }

  predicate Spent(run: Run, c: Config, email: Email)
    requires run.Guessing?
  {
    run.email == email && Answer(run, c).Verified?
  }

  lemma {:induction false} CooldownTracksLastSent(run: Run, c: Config, email: Email)
    ensures var s, last := At(run, c), LastSent(run, c, email);
            if last.None? then email !in s.cooldowns
            else email in s.cooldowns && s.cooldowns[email] == Entry("1", Deadline(last.value, c.cooldown))
  {
    if !run.Start? { CooldownTracksLastSent(run.before, c, email); }
  }

  /** A send is told to wait exactly until the cooldown after the last delivered code is over, and told for how long. */
  lemma CooldownIsExact(run: Run, c: Config, now: int, email: Email, code: string, delivered: bool)
    requires email != ""
    ensures var last, r := LastSent(run, c, email), Send(At(run, c), c, now, email, code, delivered).1;
            if last.Some? && c.cooldown > 0 && now < last.value + c.cooldown
            then r == Cooldown(last.value + c.cooldown - now)
            else !r.Cooldown?
  {
    CooldownTracksLastSent(run, c, email);
  }

  /** Codes stored for an address at times in [from, to) since its keys were last all cleared. */
  function SendsIn(run: Run, c: Config, email: Email, from: int, to: int): nat {
    match run
    case Start => 0
    case Sending(before, time, _, _, delivered) =>
      if !Stored(run, c, email) then SendsIn(before, c, email, from, to)
      else if !delivered then 0
      else SendsIn(before, c, email, from, to) + if from <= time < to then 1 else 0
    case Guessing(before, _, _, _) => if Spent(run, c, email) then 0 else SendsIn(before, c, email, from, to)
  }

  function LastTime(run: Run): Option<int> { if run.Start? then None else Some(run.time) }

  /** What a send does to the counter of an address. */
  lemma SendCounts(s: State, c: Config, time: int, e: Email, code: string, delivered: bool, email: Email)
    requires RateLimits(c)
    ensures var (n, r) := Send(s, c, time, e, code, delivered);
            var counted := Count(s.sends, time, email, c.rateWindow);
            if e != email || r.NoAddress? || r.Cooldown? then
              (email in n.sends <==> email in s.sends) && (email in s.sends ==> n.sends[email] == s.sends[email])
            else if r.DeliveryFailed? then email !in n.sends
            else n.sends == counted && email in counted && (r.Sent? <==> counted[email].value <= c.rateLimit)
  {
  }

  lemma VerifyCounts(s: State, c: Config, time: int, e: Email, clean: string, email: Email)
    ensures var (n, r) := VerifyClean(s, c, time, e, clean);
            if e == email && r.Verified? then email !in n.sends
            else (email in n.sends <==> email in s.sends) && (email in s.sends ==> n.sends[email] == s.sends[email])
  {
  }

  predicate SendsPaced(run: Run, c: Config, email: Email, from: int) {
    Paced(At(run, c).sends, email, SendsIn(run, c, email, from, from + c.rateWindow),
          c.rateLimit, c.rateWindow, from, LastTime(run))
  }

  /** How many of the codes counted so far stand after a send. */
  function SendsAfter(n: nat, r: SendResult, inside: bool): nat {
    if r.DeliveryFailed? then 0 else if r.Sent? && inside then n + 1 else n
  }

  lemma SendPaces(
    s: State, c: Config, time: int, code: string, delivered: bool, email: Email, n: nat, from: int, last: Option<int>)
    requires RateLimits(c) && Paced(s.sends, email, n, c.rateLimit, c.rateWindow, from, last)
    requires last.Some? ==> last.value <= time
    ensures var (after, r) := Send(s, c, time, email, code, delivered);
            Paced(after.sends, email, SendsAfter(n, r, from <= time < from + c.rateWindow),
                  c.rateLimit, c.rateWindow, from, Some(time))
  {
    var after := Send(s, c, time, email, code, delivered).0;
    CountPaces(s.sends, email, n, c.rateLimit, c.rateWindow, from, last, time);
    PacedElsewhere(s.sends, after.sends, email, n, c.rateLimit, c.rateWindow, from, last, time);
    SendCounts(s, c, time, email, code, delivered, email);
  }

  lemma OtherSendPaces(
    s: State, c: Config, time: int, e: Email, code: string, delivered: bool, email: Email, n: nat, from: int,
    last: Option<int>)
    requires RateLimits(c) && e != email && Paced(s.sends, email, n, c.rateLimit, c.rateWindow, from, last)
    requires last.Some? ==> last.value <= time
    ensures Paced(Send(s, c, time, e, code, delivered).0.sends, email, n, c.rateLimit, c.rateWindow, from, Some(time))
  {
    var after := Send(s, c, time, e, code, delivered).0;
    SendCounts(s, c, time, e, code, delivered, email);
    PacedElsewhere(s.sends, after.sends, email, n, c.rateLimit, c.rateWindow, from, last, time);
  }

  /** What one more send is to the history. */
  lemma SendsInAfter(run: Run, c: Config, email: Email, from: int, to: int)
    requires run.Sending?
    ensures var (after, r) := Send(At(run.before, c), c, run.time, run.email, run.code, run.delivered);
            && At(run, c) == after
            && SendsIn(run, c, email, from, to)
               == if run.email != email then SendsIn(run.before, c, email, from, to)
                  else SendsAfter(SendsIn(run.before, c, email, from, to), r, from <= run.time < to)
  {
  }

  /** Once the two functions of the history are replaced by what they are. */
  lemma PacedAs(run: Run, c: Config, email: Email, from: int, sends: Keyspace<Email, int>, n: nat, last: Option<int>)
    requires sends == At(run, c).sends && last == LastTime(run)
    requires n == SendsIn(run, c, email, from, from + c.rateWindow)
    ensures SendsPaced(run, c, email, from) <==> Paced(sends, email, n, c.rateLimit, c.rateWindow, from, last)
  {
  }

  lemma AnySendPaces(
    s: State, c: Config, time: int, e: Email, code: string, delivered: bool, email: Email, n: nat, from: int,
    last: Option<int>)
    requires RateLimits(c) && Paced(s.sends, email, n, c.rateLimit, c.rateWindow, from, last)
    requires last.Some? ==> last.value <= time
    ensures var (after, r) := Send(s, c, time, e, code, delivered);
            Paced(after.sends, email, if e != email then n else SendsAfter(n, r, from <= time < from + c.rateWindow),
                  c.rateLimit, c.rateWindow, from, Some(time))
  {
    if e == email {
      SendPaces(s, c, time, code, delivered, email, n, from, last);
    } else {
      OtherSendPaces(s, c, time, e, code, delivered, email, n, from, last);
    }
  }

  lemma SendingPaced(run: Run, c: Config, email: Email, from: int)
    requires RateLimits(c) && run.Sending? && SendsPaced(run.before, c, email, from)
    requires LastTime(run.before).Some? ==> LastTime(run.before).value <= run.time
    ensures SendsPaced(run, c, email, from)
  {
    var s, last := At(run.before, c), LastTime(run.before);
    var n := SendsIn(run.before, c, email, from, from + c.rateWindow);
    PacedAs(run.before, c, email, from, s.sends, n, last);
    AnySendPaces(s, c, run.time, run.email, run.code, run.delivered, email, n, from, last);
    var n' := SendsIn(run, c, email, from, from + c.rateWindow);
    SendsInAfter(run, c, email, from, from + c.rateWindow);
    PacedAs(run, c, email, from, At(run, c).sends, n', Some(run.time));
  }

  lemma GuessingPaced(run: Run, c: Config, email: Email, from: int)
    requires Ordered(run) && RateLimits(c) && run.Guessing? && SendsPaced(run.before, c, email, from)
    ensures SendsPaced(run, c, email, from)
  {
    var s, n := At(run.before, c), SendsIn(run.before, c, email, from, from + c.rateWindow);
    PacedElsewhere(
      s.sends, At(run, c).sends, email, n, c.rateLimit, c.rateWindow, from, LastTime(run.before), run.time);
    VerifyCounts(s, c, run.time, run.email, Trim(run.guess), email);
  }

  lemma {:induction false} AlwaysPaced(run: Run, c: Config, email: Email, from: int)
    requires Ordered(run) && RateLimits(c)
    ensures SendsPaced(run, c, email, from)
  {
    if !run.Start? {
      AlwaysPaced(run.before, c, email, from);
      if run.Sending? { SendingPaced(run, c, email, from); } else { GuessingPaced(run, c, email, from); }
    }
  }

  /**
   Without a verification or a failed delivery in between, no interval of the window's length sees
   twice `rateLimit` codes.
   */
  lemma SendsAreLimited(run: Run, c: Config, email: Email, from: int)
    requires Ordered(run) && RateLimits(c)
    ensures SendsIn(run, c, email, from, from + c.rateWindow) <= 2 * c.rateLimit - 1
  {
    AlwaysPaced(run, c, email, from);
  }

  /**
   A send that need not wait is refused for its number exactly when the counting window it falls in
   has already counted as many sends as the limit allows.
   */
  lemma RateLimitIsExact(run: Run, c: Config, now: int, email: Email, code: string, delivered: bool)
    requires RateLimits(c) && email != ""
    requires !Send(At(run, c), c, now, email, code, delivered).1.Cooldown?
    ensures var counted := Get(At(run, c).sends, now, email);
            Send(At(run, c), c, now, email, code, delivered).1.RateLimited?
            <==> counted.Some? && counted.value >= c.rateLimit
  {
    SendsArePositive(run, c, email);
  }

  lemma {:induction false} SendsArePositive(run: Run, c: Config, email: Email)
    ensures email in At(run, c).sends ==> At(run, c).sends[email].value >= 1
  {
    if !run.Start? {
      SendsArePositive(run.before, c, email);
      if run.Guessing? {
        VerifyCounts(At(run.before, c), c, run.time, run.email, Trim(run.guess), email);
      }
    }
  }

  /** Without limits nobody is refused for the number of sends. */
  lemma NoLimitNoRefusal(s: State, c: Config, now: int, email: Email, code: string, delivered: bool)
    requires c.rateLimit <= 0 || c.rateWindow <= 0
    ensures !Send(s, c, now, email, code, delivered).1.RateLimited?
  {
  }

  // ---------- Without a positive maximum there is no bound ----------

  function WrongGuesses(n: nat): Run {
    if n == 0 then Sending(Start, 0, "a", "1", true) else Guessing(WrongGuesses(n - 1), 0, "a", "2")
  }

  lemma FirstCode(c: Config)
    requires c.ttl > 0
    ensures var run := Sending(Start, 0, "a", "1", true);
            Guesses(run, c, "a") == 0 && ChallengeAt(run, c, "a") == Some(Challenge("1", Some(c.ttl), 0))
  {
    var run := Sending(Start, 0, "a", "1", true);
    assert Stored(run, c, "a") by { FirstCodeStored(c); }
  }

  lemma FirstCodeStored(c: Config)
    ensures Stored(Sending(Start, 0, "a", "1", true), c, "a")
  {
    assert RateLimits(c) ==> Count(map[], 0, "a", c.rateWindow)["a"].value == 1;
  }

  lemma OneMoreGuess(run: Run, c: Config, code: string, guesses: nat)
    requires c.maxAttempts <= 0 && c.ttl > 0 && Ordered(run) && !run.Start? && run.time == 0
    requires ChallengeAt(run, c, "a") == Some(Challenge(code, Some(c.ttl), guesses)) && code != "2"
    ensures var more := Guessing(run, 0, "a", "2");
            && Guesses(more, c, "a") == Guesses(run, c, "a") + 1
            && ChallengeAt(more, c, "a") == Some(Challenge(code, Some(c.ttl), guesses + 1))
  {
    StateTracksChallenge(run, c, "a", 0);
    TrimKeepsTrimmed("2");
    assert Compared(Guessing(run, 0, "a", "2"), c, "a");
  }

  /** So the bound is the maximum's doing: without one, any number of guesses is compared. */
  lemma {:induction false} NoMaximumNoBound(c: Config, n: nat)
    requires c.maxAttempts <= 0 && c.ttl > 0
    ensures Ordered(WrongGuesses(n)) && WrongGuesses(n).time == 0
    ensures Guesses(WrongGuesses(n), c, "a") == n
    ensures ChallengeAt(WrongGuesses(n), c, "a") == Some(Challenge("1", Some(c.ttl), n))
  {
    if n == 0 {
      FirstCode(c);
    } else {
      NoMaximumNoBound(c, n - 1);
      OneMoreGuess(WrongGuesses(n - 1), c, "1", n - 1);
    }
  }
}
