/**
 Location sync jobs in one service instance: concurrent StartSync calls, one goroutine per
 job, the atomic `syncing` flag, and crashes followed by restarts. A job row's position in
 the table is its id. Repository calls succeed.
 */
module SyncJobs {
  import opened Wrappers

  datatype Status = Queued | Running | Completed | Failed

  /** A StartSync call between its look for an active job, its insert and its `go` statement. */
  datatype Call = SawNone | Stored(job: nat) | Returned(accepted: bool)

  /** A goroutine: before the flag, refused by it, holding it, syncing, about to release it. */
  datatype Worker = Spawned | Refused | Holding | Syncing(reports: nat) | Releasing

  datatype System = System(up: bool, flag: bool, rows: seq<Status>, calls: map<nat, Call>, workers: map<nat, Worker>)

  datatype Step =
    | Look(call: nat)
    | Insert(call: nat)
    | Go(call: nat)
    | TakeFlag(job: nat)
    | FailRefused(job: nat)
    | MarkRunning(job: nat, reports: nat)   // how often the sync will report its progress
    | Report(job: nat)                      // saves the goroutine's whole copy of the row
    | Finish(job: nat, ok: bool)
    | Release(job: nat)
    | Crash
    | Restart

  predicate Active(s: Status) { s == Queued || s == Running }

  predicate OfWorker(step: Step) {
    step.TakeFlag? || step.FailRefused? || step.MarkRunning? || step.Report? || step.Finish? || step.Release?
  }

  predicate IsAt(s: System, job: nat, w: Worker) { job in s.workers && s.workers[job] == w }

  predicate Enabled(s: System, step: Step) {
    match step
    case Look(call) => s.up && call !in s.calls
    case Insert(call) => s.up && call in s.calls && s.calls[call] == SawNone
    case Go(call) => s.up && call in s.calls && s.calls[call].Stored?
    case TakeFlag(job) => IsAt(s, job, Spawned)
    case FailRefused(job) => IsAt(s, job, Refused) && job < |s.rows|
    case MarkRunning(job, _) => IsAt(s, job, Holding) && job < |s.rows|
    case Report(job) => job in s.workers && s.workers[job].Syncing? && s.workers[job].reports > 0 && job < |s.rows|
    case Finish(job, ok) =>
      job in s.workers && s.workers[job].Syncing? && (ok ==> s.workers[job].reports == 0) && job < |s.rows|
    case Release(job) => IsAt(s, job, Releasing)
    case Crash => s.up
    case Restart => !s.up
  }

  function FailActive(rows: seq<Status>): (r: seq<Status>)
    ensures |r| == |rows|
    ensures forall j :: 0 <= j < |rows| ==> r[j] == if Active(rows[j]) then Failed else rows[j]
  {
    seq(|rows|, j requires 0 <= j < |rows| => if Active(rows[j]) then Failed else rows[j])
  }

  function Next(s: System, step: Step): System
    requires Enabled(s, step)
  {
    match step
    case Look(call) =>
      var busy := exists j :: 0 <= j < |s.rows| && Active(s.rows[j]);
      s.(calls := s.calls[call := if busy then Returned(false) else SawNone])
    case Insert(call) => s.(rows := s.rows + [Queued], calls := s.calls[call := Stored(|s.rows|)])
    case Go(call) => s.(workers := s.workers[s.calls[call].job := Spawned], calls := s.calls[call := Returned(true)])
    case TakeFlag(job) => s.(flag := true, workers := s.workers[job := if s.flag then Refused else Holding])
    case FailRefused(job) => s.(rows := s.rows[job := Failed], workers := s.workers - {job})
    case MarkRunning(job, reports) => s.(rows := s.rows[job := Running], workers := s.workers[job := Syncing(reports)])
    case Report(job) =>
      s.(rows := s.rows[job := Running],
         workers := s.workers[job := Syncing(s.workers[job].reports - 1)])
    case Finish(job, ok) =>
      s.(rows := s.rows[job := if ok then Completed else Failed], workers := s.workers[job := Releasing])
    case Release(job) => s.(flag := false, workers := s.workers - {job})
    case Crash => System(false, false, s.rows, map[], map[])
    case Restart => System(true, false, FailActive(s.rows), map[], map[])
  }

  // ---------- Runs ----------

  datatype Run = Init(rows: seq<Status>) | Then(before: Run, step: Step)

  /** The service first starts on whatever is in the table. */
  predicate Possible(run: Run)
    decreases run, 0
  {
    match run
    case Init(_) => true
    case Then(before, step) => Possible(before) && Enabled(At(before), step)
  }

  function At(run: Run): System
    requires Possible(run)
    decreases run, 1
  {
    match run
    case Init(rows) => System(true, false, FailActive(rows), map[], map[])
    case Then(before, step) => Next(At(before), step)
  }

  // ---------- What every step keeps ----------

  predicate Holds(w: Worker) { w.Holding? || w.Syncing? || w.Releasing? }

  /** The row of a live goroutine is where the goroutine is. */
  predicate WorkerSound(s: System, job: nat)
    requires job in s.workers
  {
    && job < |s.rows|
    && (Holds(s.workers[job]) ==> s.flag)
    && match s.workers[job]
       case Syncing(_) => s.rows[job] == Running
       case Releasing => !Active(s.rows[job])
       case _ => s.rows[job] == Queued
  }

  predicate CallSound(s: System, call: nat)
    requires call in s.calls
  {
    s.calls[call].Stored? ==>
      s.calls[call].job < |s.rows| && s.rows[s.calls[call].job] == Queued && s.calls[call].job !in s.workers
  }

  ghost predicate AboutToGo(s: System, job: nat) { exists c :: c in s.calls && s.calls[c] == Stored(job) }

  /** An active row has somebody who will finish it. */
  ghost predicate Tended(s: System, job: nat)
    requires job < |s.rows|
  {
    s.up && Active(s.rows[job]) ==>
      if s.rows[job] == Running then job in s.workers && s.workers[job].Syncing?
      else (job in s.workers && !s.workers[job].Releasing? && !s.workers[job].Syncing?) || AboutToGo(s, job)
  }

  ghost predicate OneHolder(s: System) {
    && (forall j, k :: j in s.workers && k in s.workers && Holds(s.workers[j]) && Holds(s.workers[k]) ==> j == k)
    && (s.flag ==> exists j :: j in s.workers && Holds(s.workers[j]))
  }

  predicate OneRunning(rows: seq<Status>) {
    forall j, k :: 0 <= j < |rows| && 0 <= k < |rows| && rows[j] == rows[k] == Running ==> j == k
  }

  ghost predicate Sound(s: System) {
    && (forall j :: j in s.workers ==> WorkerSound(s, j))
    && (forall c :: c in s.calls ==> CallSound(s, c))
    && (forall c, d :: c in s.calls && d in s.calls && s.calls[c].Stored? && s.calls[c] == s.calls[d] ==> c == d)
    && (forall j :: 0 <= j < |s.rows| ==> Tended(s, j))
    && OneHolder(s)
    && (!s.up ==> s.workers == map[] && s.calls == map[])
    && OneRunning(s.rows)
  }

  lemma CallsKeepSound(s: System, step: Step)
    requires Sound(s) && Enabled(s, step) && (step.Look? || step.Insert? || step.Go?)
    ensures Sound(Next(s, step))
  {
    var n := Next(s, step);
    forall j | j in n.workers ensures WorkerSound(n, j) {
      if j in s.workers { assert WorkerSound(s, j); } else { assert CallSound(s, step.call); }
    }
    forall c | c in n.calls ensures CallSound(n, c) { if c in s.calls { assert CallSound(s, c); } }
    forall j | 0 <= j < |n.rows| ensures Tended(n, j) { CallsKeepTended(s, step, j); }
    CallsKeepHolder(s, step);
  }

  lemma CallsKeepTended(s: System, step: Step, j: nat)
    requires Sound(s) && Enabled(s, step) && (step.Look? || step.Insert? || step.Go?) && j < |Next(s, step).rows|
    ensures Tended(Next(s, step), j)
  {
    var n := Next(s, step);
    if j < |s.rows| {
      assert Tended(s, j);
      if c :| c in s.calls && s.calls[c] == Stored(j) {
        if c == step.call { assert step.Go? ==> j in n.workers; } else { assert n.calls[c] == Stored(j); }
      }
    } else {
      assert n.calls[step.call] == Stored(j);
    }
  }

  lemma CallsKeepHolder(s: System, step: Step)
    requires Sound(s) && Enabled(s, step) && (step.Look? || step.Insert? || step.Go?)
    ensures OneHolder(Next(s, step))
  {
    var n := Next(s, step);
    if step.Go? { assert CallSound(s, step.call); }
    if s.flag { var j :| j in s.workers && Holds(s.workers[j]); assert n.workers[j] == s.workers[j]; }
  }

  lemma WorkersKeepSound(s: System, step: Step)
    requires Sound(s) && Enabled(s, step) && OfWorker(step)
    ensures Sound(Next(s, step))
  {
    var n, job := Next(s, step), step.job;
    assert WorkerSound(s, job);
    forall j | j in n.workers ensures WorkerSound(n, j) { assert WorkerSound(s, j); }
    forall c | c in n.calls ensures CallSound(n, c) { assert CallSound(s, c); }
    forall j | 0 <= j < |n.rows| ensures Tended(n, j) { WorkersKeepTended(s, step, j); }
    WorkersKeepHolder(s, step);
    WorkersKeepOneRunning(s, step);
  }

  lemma WorkersKeepTended(s: System, step: Step, j: nat)
    requires Sound(s) && Enabled(s, step) && OfWorker(step) && j < |Next(s, step).rows|
    ensures Tended(Next(s, step), j)
  {
    assert WorkerSound(s, step.job) && Tended(s, j);
    if c :| c in s.calls && s.calls[c] == Stored(j) { assert Next(s, step).calls[c] == Stored(j); }
  }

  lemma WorkersKeepOneRunning(s: System, step: Step)
    requires Sound(s) && Enabled(s, step) && OfWorker(step)
    ensures OneRunning(Next(s, step).rows)
  {
    var rows := Next(s, step).rows;
    assert WorkerSound(s, step.job);
    forall j, k | 0 <= j < |rows| && 0 <= k < |rows| && rows[j] == rows[k] == Running ensures j == k {
      assert Tended(s, j) && Tended(s, k);
    }
  }

  lemma WorkersKeepHolder(s: System, step: Step)
    requires Sound(s) && Enabled(s, step) && OfWorker(step)
    ensures OneHolder(Next(s, step))
  {
    var n, job := Next(s, step), step.job;
    if s.flag {
      var j :| j in s.workers && Holds(s.workers[j]);
      if j in n.workers { assert n.workers[j] == s.workers[j] || j == job; }
    }
    if step.TakeFlag? && !s.flag { assert n.workers[job] == Holding; }
  }

  lemma StepKeepsSound(s: System, step: Step)
    requires Sound(s) && Enabled(s, step)
    ensures Sound(Next(s, step))
  {
    if step.Look? || step.Insert? || step.Go? {
      CallsKeepSound(s, step);
    } else if OfWorker(step) {
      WorkersKeepSound(s, step);
    }
  }

  /**
   In every reachable state at most one row is running, every active row of a service that is up
   has a goroutine (or the call about to start it) at the matching point, and some goroutine holds
   the flag exactly when it is set.
   */
  lemma {:induction false} EveryStateSound(run: Run)
    requires Possible(run)
    ensures Sound(At(run))
    ensures OneRunning(At(run).rows)
    ensures At(run).up ==> forall j :: 0 <= j < |At(run).rows| && Active(At(run).rows[j]) ==>
              j in At(run).workers || AboutToGo(At(run), j)
    ensures At(run).flag <==> exists j :: j in At(run).workers && Holds(At(run).workers[j])
  {
    if run.Then? {
      EveryStateSound(run.before);
      StepKeepsSound(At(run.before), run.step);
    }
    var s := At(run);
    forall j | s.up && 0 <= j < |s.rows| && Active(s.rows[j]) ensures j in s.workers || AboutToGo(s, j) {
      assert Tended(s, j);
    }
    forall j | j in s.workers && Holds(s.workers[j]) ensures s.flag { assert WorkerSound(s, j); }
  }

  // ---------- Statuses only move forward ----------

  predicate MayBecome(a: Status, b: Status) {
    a == b || (a == Queued && (b == Running || b == Failed)) || (a == Running && (b == Completed || b == Failed))
  }

  /** One step: rows are never lost, a new row is queued, and a status moves along one edge or not at all. */
  lemma StatusesMoveForward(run: Run, step: Step)
    requires Possible(Then(run, step))
    ensures var rows, rows1 := At(run).rows, At(Then(run, step)).rows;
            && |rows| <= |rows1|
            && (forall j :: 0 <= j < |rows| ==> MayBecome(rows[j], rows1[j]))
            && (forall j :: |rows| <= j < |rows1| ==> rows1[j] == Queued)
  {
    EveryStateSound(run);
    var s := At(run);
    if step.FailRefused? || step.MarkRunning? || step.Report? || step.Finish? { assert WorkerSound(s, step.job); }
  }

  // ---------- Every goroutine finishes its row ----------

  /** A goroutine's own next step when it is scheduled. */
  function Own(s: System, job: nat, reports: nat, ok: bool): Step
    requires job in s.workers
  {
    match s.workers[job]
    case Spawned => TakeFlag(job)
    case Refused => FailRefused(job)
    case Holding => MarkRunning(job, reports)
    case Syncing(n) => if n > 0 then Report(job) else Finish(job, ok)
    case Releasing => Release(job)
  }

  /** How many more of its own steps a goroutine can take at most. */
  function StepsLeft(w: Worker, reports: nat): nat {
    match w
    case Spawned => reports + 5
    case Holding => reports + 4
    case Syncing(n) => n + 3
    case Refused => 2
    case Releasing => 1
  }

  predicate SameWorker(s: System, n: System, job: nat)
    requires job in s.workers
  {
    job in n.workers && n.workers[job] == s.workers[job]
  }

  /** Nothing ever blocks a goroutine, and nothing but its own steps and a crash moves it. */
  lemma WorkersAreIndependent(run: Run, step: Step, job: nat, reports: nat, ok: bool)
    requires Possible(Then(run, step)) && job in At(run).workers
    ensures Enabled(At(run), Own(At(run), job, reports, ok))
    ensures step != Crash && !(OfWorker(step) && step.job == job) ==> SameWorker(At(run), At(Then(run, step)), job)
  {
    EveryStateSound(run);
    OwnIsEnabled(At(run), job, reports, ok);
    OthersLeaveWorker(At(run), step, job);
  }

  lemma OwnIsEnabled(s: System, job: nat, reports: nat, ok: bool)
    requires Sound(s) && job in s.workers
    ensures Enabled(s, Own(s, job, reports, ok))
  {
    assert WorkerSound(s, job);
  }

  lemma OthersLeaveWorker(s: System, step: Step, job: nat)
    requires Sound(s) && job in s.workers && Enabled(s, step)
    ensures step != Crash && !(OfWorker(step) && step.job == job) ==> SameWorker(s, Next(s, step), job)
  {
    if step.Go? { assert CallSound(s, step.call); }
  }

  /** Its own step brings it closer to its end, where its row is finished. */
  lemma OwnStepAdvances(s: System, job: nat, reports: nat, ok: bool)
    requires Sound(s) && job in s.workers
    ensures var step := Own(s, job, reports, ok);
            && Enabled(s, step)
            && var n := Next(s, step);
               && (forall j :: j in s.workers && j != job ==> SameWorker(s, n, j))
               && (if job in n.workers then StepsLeft(n.workers[job], reports) < StepsLeft(s.workers[job], reports)
                   else job < |n.rows| && !Active(n.rows[job]))
  {
    assert WorkerSound(s, job);
  }

  /** So, scheduled often enough, every goroutine finishes its row: here by its own steps alone. */
  lemma {:induction false} WorkersFinish(run: Run, job: nat, reports: nat, ok: bool) returns (later: Run)
    requires Possible(run) && job in At(run).workers
    ensures Possible(later) && job !in At(later).workers
    ensures job < |At(later).rows| && !Active(At(later).rows[job])
    ensures forall j :: j in At(run).workers && j != job ==> SameWorker(At(run), At(later), j)
    decreases StepsLeft(At(run).workers[job], reports)
  {
    EveryStateSound(run);
    OwnStepAdvances(At(run), job, reports, ok);
    var next := Then(run, Own(At(run), job, reports, ok));
    if job in At(next).workers { later := WorkersFinish(next, job, reports, ok); } else { later := next; }
  }

  // ---------- The program's code, each call uninterrupted ----------

  datatype Request = Request(level: string, province: string, city: string, district: string)

  datatype SyncError = MissingCode | InvalidLevel | SyncRunning

  /** `normalizeAndValidateRequest`: an empty level means all, and each level below asks for the codes above it. */
  function Refusal(r: Request): Option<SyncError> {
    match r.level
    case "" => None
    case "all" => None
    case "province" => None
    case "city" => if r.province == "" then Some(MissingCode) else None
    case "district" => if r.province == "" || r.city == "" then Some(MissingCode) else None
    case "village" => if r.province == "" || r.city == "" || r.district == "" then Some(MissingCode) else None
    case _ => Some(InvalidLevel)
  }

  /** The levels from the widest down, and the code that picks one place at each. */
  const LEVELS: seq<string> := ["province", "city", "district", "village"]

  function Codes(r: Request): seq<string> { [r.province, r.city, r.district] }

  predicate CodesAbove(r: Request, n: nat) { n <= 3 && forall k :: 0 <= k < n ==> Codes(r)[k] != "" }

  /**
   A request is taken for everything, or for one level with a code for each level above it, and for
   no other level.
   */
  lemma TakenIffCodesAbove(r: Request)
    ensures Refusal(r) == None <==>
              r.level == "" || r.level == "all" || exists n :: 0 <= n < 4 && r.level == LEVELS[n] && CodesAbove(r, n)
    ensures Refusal(r) == Some(InvalidLevel) <==> r.level != "" && r.level != "all" && r.level !in LEVELS
  {
    assert LEVELS[0] == "province" && LEVELS[1] == "city" && LEVELS[2] == "district" && LEVELS[3] == "village";
    assert Codes(r)[0] == r.province && Codes(r)[1] == r.city && Codes(r)[2] == r.district;
    assert CodesAbove(r, 0) && (CodesAbove(r, 1) <==> r.province != "");
    assert CodesAbove(r, 2) <==> r.province != "" && r.city != "";
    assert CodesAbove(r, 3) <==> r.province != "" && r.city != "" && r.district != "";
  }

  class LocationService {
    var rows: seq<Status>
    var syncing: bool
    ghost var run: Run

    /** What the code has done so far is a run of the machine above. */
    ghost predicate Follows()
      reads this
    {
      Possible(run) && At(run).up && At(run).rows == rows && At(run).flag == syncing
    }

    constructor (table: seq<Status>)
      ensures Follows() && !syncing && At(run).workers == map[] && At(run).calls == map[]
      ensures |rows| == |table| && forall j :: 0 <= j < |rows| ==>
          rows[j] == if Active(table[j]) then Failed else table[j]
    {
      rows, syncing, run := FailActive(table), false, Init(table);
    }

    /** One step of the run. */
    ghost method Take(step: Step)
      requires Possible(run) && Enabled(At(run), step)
      modifies this`run
      ensures run == Then(old(run), step) && Possible(run) && At(run) == Next(At(old(run)), step)
    {
      run := Then(run, step);
    }

    /** Refused for a bad request and while a job is active; otherwise a new queued row with a goroutine of its own. */
    method StartSync(request: Request, ghost call: nat) returns (job: Result<nat, SyncError>)
      requires Follows() && call !in At(run).calls
      modifies this
      ensures Follows() && syncing == old(syncing)
      ensures Refusal(request).Some? ==> job == Err(Refusal(request).value)
      ensures Refusal(request).None? ==>
                (job == Err(SyncRunning) <==> exists j :: 0 <= j < |old(rows)| && Active(old(rows)[j]))
      ensures Refusal(request).None? && job.Err? ==> job.error == SyncRunning
      ensures job.Err? ==> rows == old(rows) && At(run).workers == At(old(run)).workers
      ensures job.Ok? ==> job.value == |old(rows)| && rows == old(rows) + [Queued]
                          && At(run).workers == At(old(run)).workers[job.value := Spawned]
    {
      if Refusal(request).Some? { return Err(Refusal(request).value); }
      ghost var s := At(run);
      Take(Look(call));
      if exists j :: 0 <= j < |rows| && Active(rows[j]) { return Err(SyncRunning); }
      Take(Insert(call));
      rows := rows + [Queued];
      assert At(run).workers == s.workers && At(run).calls[call] == Stored(|rows| - 1);
      Take(Go(call));
      return Ok(|rows| - 1);
    }

    /** The goroutine fails its job if another holds the flag, and otherwise ends it as the sync came out. */
    method RunSyncJob(job: nat, reports: nat, ok: bool)
      requires Follows() && IsAt(At(run), job, Spawned)
      modifies this
      ensures Follows() && syncing == old(syncing)
      ensures job < |old(rows)| && rows == old(rows)[job := if ok && !old(syncing) then Completed else Failed]
      ensures At(run).workers == At(old(run)).workers - {job}
    {
      ghost var s := At(run);
      EveryStateSound(run);
      assert WorkerSound(s, job);
      Dropped(s, job, Refused);
      Take(TakeFlag(job));
      if syncing {
        Take(FailRefused(job));
        rows := rows[job := Failed];
        return;
      }
      syncing := true;
      TakesFlag(s, job);
      SyncHolding(job, reports, ok, s);
    }

    /** From the taken flag to its release. */
    method SyncHolding(job: nat, reports: nat, ok: bool, ghost s: System)
      requires job < |s.rows| && s.up && !s.flag && s.rows[job] == Queued
      requires Possible(run) && At(run) == With(s, job, Queued, Holding) && rows == s.rows && syncing
      modifies this
      ensures Follows() && !syncing && rows == s.rows[job := if ok then Completed else Failed]
      ensures At(run).workers == s.workers - {job}
    {
      MarksRunning(s, job, reports);
      Take(MarkRunning(job, reports));
      rows := rows[job := Running];
      for i := 0 to reports
        invariant Possible(run) && syncing && rows == s.rows[job := Running]
        invariant At(run) == With(s, job, Running, Syncing(reports - i))
      {
        Reports(s, job, reports - i);
        Take(Report(job));
        rows := rows[job := Running];
      }
      var end := if ok then Completed else Failed;
      Finishes(s, job, ok);
      Take(Finish(job, ok));
      rows := rows[job := end];
      Releases(s, job, end);
      Take(Release(job));
      syncing := false;
    }
  }

  function With(s: System, job: nat, status: Status, w: Worker): System
    requires job < |s.rows|
  {
    s.(flag := true, rows := s.rows[job := status], workers := s.workers[job := w])
  }

  lemma TakesFlag(s: System, job: nat)
    requires IsAt(s, job, Spawned) && job < |s.rows| && s.rows[job] == Queued && !s.flag
    ensures Next(s, TakeFlag(job)) == With(s, job, Queued, Holding)
  {
    assert s.rows[job := Queued] == s.rows;
  }

  lemma MarksRunning(s: System, job: nat, reports: nat)
    requires job < |s.rows|
    ensures var h := With(s, job, Queued, Holding);
            Enabled(h, MarkRunning(job, reports))
            && Next(h, MarkRunning(job, reports)) == With(s, job, Running, Syncing(reports))
  {
    Overwritten(s, job, Queued, Holding, Running, Syncing(reports));
  }

  lemma Reports(s: System, job: nat, left: nat)
    requires job < |s.rows| && left > 0
    ensures var h := With(s, job, Running, Syncing(left));
            Enabled(h, Report(job)) && Next(h, Report(job)) == With(s, job, Running, Syncing(left - 1))
  {
    Overwritten(s, job, Running, Syncing(left), Running, Syncing(left - 1));
  }

  lemma Finishes(s: System, job: nat, ok: bool)
    requires job < |s.rows|
    ensures var h := With(s, job, Running, Syncing(0));
            Enabled(h, Finish(job, ok))
            && Next(h, Finish(job, ok)) == With(s, job, if ok then Completed else Failed, Releasing)
  {
    Overwritten(s, job, Running, Syncing(0), if ok then Completed else Failed, Releasing);
  }

  lemma Releases(s: System, job: nat, end: Status)
    requires job < |s.rows|
    ensures var h := With(s, job, end, Releasing);
            Enabled(h, Release(job))
            && Next(h, Release(job))
               == h.(flag := false, workers := s.workers - {job})
  {
    Dropped(s, job, Releasing);
  }

  lemma Overwritten(s: System, job: nat, a: Status, v: Worker, b: Status, w: Worker)
    requires job < |s.rows|
    ensures With(With(s, job, a, v), job, b, w) == With(s, job, b, w)
  {
    assert s.rows[job := a][job := b] == s.rows[job := b];
    assert s.workers[job := v][job := w] == s.workers[job := w];
  }

  lemma Dropped(s: System, job: nat, w: Worker)
    ensures s.workers[job := w] - {job} == s.workers - {job}
  {
  }
}
