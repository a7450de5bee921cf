/**
 The login limiter and the order of checks in the login handler: a blocked key is turned away
 before the password is looked at; a wrong password is counted; a right one clears the counter.
 Attempts are sequential and the limiter's three parameters are positive, as its constructor demands.
 */
module LoginLimiter {
  import opened Wrappers
  import opened Redis
  import opened Counters

  datatype Config = Config(limit: int, window: int, block: int)

  predicate Configured(c: Config) { c.limit > 0 && c.window > 0 && c.block > 0 }

  datatype State = State(attempts: Keyspace<Key, int>, blocks: Keyspace<Key, string>)

  predicate Blocked(s: State, now: int, key: Key) { Ttl(s.blocks, now, key) > 0 }

  function Fail(s: State, c: Config, now: int, key: Key): State {
    var attempts := Count(s.attempts, now, key, c.window);
    if key in attempts && attempts[key].value >= c.limit
    then State(Del(attempts, key), Put(s.blocks, now, key, "1", c.block))
    else s.(attempts := attempts)
  }

  function Cleared(s: State, key: Key): State { State(Del(s.attempts, key), Del(s.blocks, key)) }

  /** What the password check says; `Broken` is an internal error, which is not counted. */
  datatype Check = Right | Wrong | Broken

  function Login(s: State, c: Config, now: int, key: Key, check: Check): State {
    if Blocked(s, now, key) then s
    else match check
      case Right => Cleared(s, key)
      case Wrong => Fail(s, c, now, key)
      case Broken => s
  }

  class Limiter {
    var state: State
    const config: Config

    constructor (config: Config)
      requires Configured(config)
      ensures state == State(map[], map[]) && this.config == config
    {
      this.state, this.config := State(map[], map[]), config;
    }

    method IsBlocked(now: int, key: Key) returns (blocked: bool, retryAfter: int)
      ensures blocked <==> Blocked(state, now, key)
      ensures retryAfter == if blocked then Ttl(state.blocks, now, key) else 0
    {
      var ttl := Ttl(state.blocks, now, key);
      if ttl <= 0 { return false, 0; }
      return true, ttl;
    }

    /** Counts the failure; when it fills the window the key is blocked. Tells how long block or window still last. */
    method RegisterFailure(now: int, key: Key) returns (blocked: bool, remaining: int)
      requires Configured(config)
      modifies this`state
      ensures state == Fail(old(state), config, now, key)
      ensures !Blocked(old(state), now, key) ==> (blocked <==> Blocked(state, now, key))
      ensures remaining == if blocked then Ttl(state.blocks, now, key) else Ttl(state.attempts, now, key)
    {
      var attempts := Incr(state.attempts, now, key);
      var count := attempts[key].value;
      if count == 1 { attempts := Expire(attempts, now, key, config.window); }
      if count >= config.limit {
        state := State(Del(attempts, key), Put(state.blocks, now, key, "1", config.block));
        return true, config.block;
      }
      state := state.(attempts := attempts);
      return false, Ttl(state.attempts, now, key);
    }

    /** The handler's sequence; `checked` tells whether the password was looked at. */
    method HandleLogin(now: int, key: Key, check: Check) returns (checked: bool)
      requires Configured(config)
      modifies this`state
      ensures state == Login(old(state), config, now, key, check)
      ensures checked <==> !Blocked(old(state), now, key)
    {
      var blocked, _ := IsBlocked(now, key);
      if blocked { return false; }
      match check {
        case Wrong => var _, _ := RegisterFailure(now, key);
        case Right => state := Cleared(state, key);
        case Broken =>
      }
      return true;
    }
  }

  // ---------- Runs ----------

  datatype Run = Start | Attempt(before: Run, time: int, key: Key, check: Check)

  predicate Ordered(run: Run) {
    run.Attempt? ==> Ordered(run.before) && (run.before.Attempt? ==> run.before.time <= run.time)
  }

  function At(run: Run, c: Config): State {
    match run
    case Start => State(map[], map[])
    case Attempt(before, time, key, check) => Login(At(before, c), c, time, key, check)
  }

  /** Did the last attempt reach the password check? */
  predicate Checked(run: Run, c: Config)
    requires run.Attempt?
  {
    !Blocked(At(run.before, c), run.time, run.key)
  }

  predicate Failed(run: Run, c: Config, key: Key)
    requires run.Attempt?
  {
    run.key == key && run.check == Wrong && Checked(run, c)
  }

  /** The last attempt logged the key in, which clears it. */
  predicate ClearedBy(run: Run, c: Config, key: Key)
    requires run.Attempt?
  {
    run.key == key && run.check == Right && Checked(run, c)
  }

  /**
   The counting window a key is in, or was last in: when its first failure came, how many it has
   counted, and until when it can count more or blocks.
   */
  datatype Window = Window(started: int, failures: nat, ends: int)

  /**
   The window is read off the history alone: a counted failure belongs to the window of the one
   before it unless that window, or the block it led to, is over; a login ends it.
   */
  function LastWindow(run: Run, c: Config, key: Key): Option<Window> {
    match run
    case Start => None
    case Attempt(before, time, _, _) =>
      var w := LastWindow(before, c, key);
      if ClearedBy(run, c, key) then None
      else if !Failed(run, c, key) then w
      else
        var n := if w.None? || w.value.ends <= time then Window(time, 1, time + c.window)
                 else w.value.(failures := w.value.failures + 1);
        Some(if n.failures == c.limit then n.(ends := time + c.block) else n)
  }

  /** The stored keys are that window and nothing else: the counter while it is open, the block once it is full. */
  predicate Tracks(s: State, c: Config, key: Key, now: int, w: Option<Window>) {
    if w.None? || w.value.ends <= now then Get(s.attempts, now, key).None? && !Blocked(s, now, key)
    else
      && 1 <= w.value.failures <= c.limit
      && if w.value.failures < c.limit
         then !Blocked(s, now, key) && key in s.attempts
              && s.attempts[key] == Entry(w.value.failures, Some(w.value.ends))
         else Get(s.attempts, now, key).None? && key in s.blocks && s.blocks[key].expiry == Some(w.value.ends)
  }

  lemma TrackedLater(s: State, c: Config, key: Key, now: int, later: int, w: Option<Window>)
    requires Tracks(s, c, key, now, w) && now <= later
    ensures Tracks(s, c, key, later, w)
  {
  }

  lemma AttemptTracks(run: Run, c: Config, key: Key)
    requires Configured(c) && run.Attempt?
    requires Tracks(At(run.before, c), c, key, run.time, LastWindow(run.before, c, key))
    ensures Tracks(At(run, c), c, key, run.time, LastWindow(run, c, key))
  {
  }

  lemma {:induction false} StateTracksWindow(run: Run, c: Config, key: Key, now: int)
    requires Configured(c) && Ordered(run) && (run.Attempt? ==> run.time <= now)
    ensures Tracks(At(run, c), c, key, now, LastWindow(run, c, key))
  {
    if run.Attempt? {
      StateTracksWindow(run.before, c, key, run.time);
      AttemptTracks(run, c, key);
      TrackedLater(At(run, c), c, key, run.time, now, LastWindow(run, c, key));
    }
  }

  // ---------- Failures in any interval ----------

  /** Counted failures of a key at times in [from, to) since its last successful login. */
  function FailuresIn(run: Run, c: Config, key: Key, from: int, to: int): nat {
    match run
    case Start => 0
    case Attempt(before, time, _, _) =>
      if ClearedBy(run, c, key) then 0
      else FailuresIn(before, c, key, from, to) + if Failed(run, c, key) && from <= time < to then 1 else 0
  }

  function Span(c: Config): int { if c.window <= c.block then c.window else c.block }

  function FailuresFrom(run: Run, c: Config, key: Key, from: int): nat {
    FailuresIn(run, c, key, from, from + Span(c))
  }

  predicate InPast(run: Run, from: int) { run.Attempt? && from <= run.time }

  /** The most failures an interval can count: one window's but two, and another window's. */
  function Bound(c: Config): int { if c.limit <= 1 then 1 else 2 * c.limit - 2 }

  /**
   What is known, part way, about the failures counted in [from, from + Span). A window that
   started earlier has its first failure outside; if it is full and its block began inside, the
   block outlasts the interval, and if the block began before, none of its failures is inside.
   */
  predicate Paced(run: Run, c: Config, key: Key, from: int) {
    var w, n := LastWindow(run, c, key), FailuresFrom(run, c, key, from);
    if w.None? then n == 0
    else
      && 1 <= w.value.failures <= c.limit && w.value.started + Span(c) <= w.value.ends
      && InPast(run, w.value.started) && (n > 0 ==> InPast(run, from))
      && (if w.value.started < from then
            n <= w.value.failures - 1 && (w.value.failures == c.limit && w.value.ends - c.block < from ==> n == 0)
          else if w.value.started < from + Span(c) then n <= Bound(c) - c.limit + w.value.failures
          else n <= Bound(c))
  }

  lemma {:induction false} AlwaysPaced(run: Run, c: Config, key: Key, from: int)
    requires Configured(c) && Ordered(run)
    ensures Paced(run, c, key, from)
  {
    if run.Attempt? {
      AlwaysPaced(run.before, c, key, from);
      StateTracksWindow(run.before, c, key, run.time);
    }
  }

  lemma {:induction false} SameWhenOver(run: Run, c: Config, key: Key, from: int, to: int, later: int)
    requires Ordered(run) && (run.Attempt? ==> run.time < to && run.time < later)
    ensures FailuresIn(run, c, key, from, to) == FailuresIn(run, c, key, from, later)
  {
    if run.Attempt? { SameWhenOver(run.before, c, key, from, to, later); }
  }

  lemma {:induction false} NoneAhead(run: Run, c: Config, key: Key, from: int, to: int)
    requires Ordered(run) && (run.Attempt? ==> run.time < from)
    ensures FailuresIn(run, c, key, from, to) == 0
  {
    if run.Attempt? { NoneAhead(run.before, c, key, from, to); }
  }

  /** A window's own count is all the failures counted from its start to its end, and none is counted later yet. */
  lemma {:induction false} WindowIsExact(run: Run, c: Config, key: Key)
    requires Configured(c) && Ordered(run)
    ensures var w := LastWindow(run, c, key);
            if w.None? then forall from, to :: FailuresIn(run, c, key, from, to) == 0
            else
              && FailuresIn(run, c, key, w.value.started, w.value.ends) == w.value.failures
              && forall from, to :: w.value.ends <= from ==> FailuresIn(run, c, key, from, to) == 0
  {
    if run.Attempt? {
      WindowIsExact(run.before, c, key);
      var v, w := LastWindow(run.before, c, key), LastWindow(run, c, key);
      if v.Some? && w.Some? && v.value.ends > run.time {
        AlwaysPaced(run.before, c, key, 0);
        SameWhenOver(run.before, c, key, v.value.started, v.value.ends, w.value.ends);
        forall from, to | w.value.ends <= from ensures FailuresIn(run, c, key, from, to) == 0 {
          NoneAhead(run, c, key, from, to);
        }
      }
    }
  }

  /**
   From the first failure of a counting window to the end of it, or of the block it triggers, at
   most `limit` failures are counted, and once they are, no password of the key is checked again,
   right or wrong, before that end.
   */
  lemma WindowCountsLimit(run: Run, c: Config, key: Key)
    requires Configured(c) && Ordered(run) && run.Attempt?
    ensures var w := LastWindow(run, c, key);
            w.Some? ==> 1 <= FailuresIn(run, c, key, w.value.started, w.value.ends) <= c.limit
    ensures var w := LastWindow(run.before, c, key);
            (w.Some? && run.key == key && run.time < w.value.ends
             && FailuresIn(run.before, c, key, w.value.started, w.value.ends) >= c.limit) ==> !Checked(run, c)
  {
    AlwaysPaced(run, c, key, 0);
    StateTracksWindow(run.before, c, key, run.time);
    WindowIsExact(run, c, key);
    WindowIsExact(run.before, c, key);
  }

  /** Without a successful login in between, no interval as long as the shorter of window and block counts more. */
  lemma IntervalBound(run: Run, c: Config, key: Key, from: int)
    requires Configured(c) && Ordered(run)
    ensures FailuresFrom(run, c, key, from) <= Bound(c)
  {
    AlwaysPaced(run, c, key, from);
  }

  // ---------- The bound is reached ----------

  function Failing(before: Run, n: nat, time: int, key: Key): Run {
    if n == 0 then before else Attempt(Failing(before, n - 1, time, key), time, key, Wrong)
  }

  /** Failures at one moment inside an open window are all counted, up to the limit. */
  lemma {:induction false} FailingCounts(before: Run, n: nat, time: int, c: Config, key: Key, from: int)
    requires Configured(c) && Ordered(before) && before.Attempt? && before.time <= time
    requires from <= time < from + Span(c)
    requires var w := LastWindow(before, c, key);
             w.Some? && time < w.value.ends && w.value.failures + n <= c.limit
    ensures var run := Failing(before, n, time, key);
            && Ordered(run) && run.Attempt? && run.time <= time
            && LastWindow(run, c, key) == Some(Fuller(LastWindow(before, c, key).value, n, time, c))
            && FailuresFrom(run, c, key, from) == FailuresFrom(before, c, key, from) + n
  {
    if n > 0 {
      var w, last := LastWindow(before, c, key).value, Failing(before, n - 1, time, key);
      FailingCounts(before, n - 1, time, c, key, from);
      OneMoreCounts(last, time, c, key, from);
      assert Failing(before, n, time, key) == Attempt(last, time, key, Wrong);
      assert Fuller(Fuller(w, n - 1, time, c), 1, time, c) == Fuller(w, n, time, c);
    } else {
      assert Failing(before, 0, time, key) == before;
    }
  }

  /** A window after so many more failures at one time. */
  function Fuller(w: Window, n: nat, time: int, c: Config): Window {
    Window(w.started, w.failures + n, if n > 0 && w.failures + n == c.limit then time + c.block else w.ends)
  }

  lemma OneMoreCounts(before: Run, time: int, c: Config, key: Key, from: int)
    requires Configured(c) && Ordered(before) && before.Attempt? && before.time <= time
    requires from <= time < from + Span(c)
    requires var w := LastWindow(before, c, key);
             w.Some? && time < w.value.ends && w.value.failures < c.limit
    ensures var run := Attempt(before, time, key, Wrong);
            && LastWindow(run, c, key) == Some(Fuller(LastWindow(before, c, key).value, 1, time, c))
            && FailuresFrom(run, c, key, from) == FailuresFrom(before, c, key, from) + 1
  {
    var run := Attempt(before, time, key, Wrong);
    StateTracksWindow(before, c, key, time);
    assert Failed(run, c, key) && !ClearedBy(run, c, key);
  }

  lemma FirstFailure(c: Config, key: Key, from: int)
    requires Configured(c)
    ensures var run := Attempt(Start, 0, key, Wrong);
            && (from <= 0 < from + Span(c) ==> FailuresFrom(run, c, key, from) == 1)
            && (from > 0 ==> FailuresFrom(run, c, key, from) == 0)
            && LastWindow(run, c, key) == Some(Window(0, 1, if c.limit == 1 then c.block else c.window))
  {
    var run := Attempt(Start, 0, key, Wrong);
    StateTracksWindow(Start, c, key, 0);
    assert LastWindow(Start, c, key) == None && FailuresIn(Start, c, key, from, from + Span(c)) == 0;
    assert Failed(run, c, key);
  }

  lemma OneFailure(c: Config, key: Key, from: int)
    requires Configured(c) && c.limit == 1 && from <= 0 < from + Span(c)
    ensures exists run, start :: Ordered(run) && FailuresFrom(run, c, key, start) == Bound(c)
  {
    var run := Attempt(Start, 0, key, Wrong);
    FirstFailure(c, key, from);
    BoundOfOne(c);
    assert Ordered(run);
  }

  lemma BoundOfOne(c: Config)
    requires c.limit == 1
    ensures Bound(c) == 1
  {
  }

  /** For every limit, and windows and blocks of at least two seconds, some run reaches the bound. */
  lemma BoundIsTight(c: Config, key: Key)
    requires Configured(c) && Span(c) > 1
    ensures exists run, from :: Ordered(run) && FailuresFrom(run, c, key, from) == Bound(c)
  {
    var from := c.window - 1;
    var first := Attempt(Start, 0, key, Wrong);
    FirstFailure(c, key, from);
    if c.limit == 1 {
      OneFailure(c, key, 0);
    } else {
      FailingCounts(first, c.limit - 2, from, c, key, from);
      var before := Failing(first, c.limit - 2, from, key);
      var second := Attempt(before, c.window, key, Wrong);
      StateTracksWindow(before, c, key, c.window);
      FailingCounts(second, c.limit - 1, c.window, c, key, from);
      assert FailuresFrom(first, c, key, from) == 0;
      assert FailuresFrom(second, c, key, from) == c.limit - 1;
      var run := Failing(second, c.limit - 1, c.window, key);
      assert Ordered(run) && FailuresFrom(run, c, key, from) == Bound(c);
    }
  }
}
