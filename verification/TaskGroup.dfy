/**
 The bounded-concurrency task group: `Group.Run` as a transition system.

 One group serves any number of `Run` calls, which may overlap and share the token queue.
 Each `Run` has its own goroutine for the caller and one per task. A region the code executes
 under `errorAccess` is one atomic action; everything else moves one channel or context
 operation at a time.
 */
module TaskGroup {
  import opened Prelude
  import opened Sums

  datatype Err =
    | TaskErr(code: int)
    | Named(name: string, cause: Err)
    | Joined(errs: seq<Err>)

  /** errors.Join of two possibly nil errors. */
  function ErrorsJoin(a: Option<Err>, b: Option<Err>): Option<Err> {
    var parts := (if a.Some? then [a.value] else []) + (if b.Some? then [b.value] else []);
    if parts == [] then None else Some(Joined(parts))
  }

  /** A task's error under the name it was appended with. */
  function Label(name: string, e: Err): Err {
    if name != "" then Named(name, e) else e
  }

  /** The variables of one `Run` that its goroutines share. */
  datatype Shared = Shared(count: int, err: Option<Err>, cancelled: bool, finished: bool)

  /** The locked region after a task body returned `e`. */
  function Record(sh: Shared, name: string, e: Option<Err>, fastFail: bool): Shared {
    match e
    case None => sh.(count := sh.count - 1)
    case Some(x) =>
      sh.(count := sh.count - 1,
          err := ErrorsJoin(sh.err, Some(Label(name, x))),
          cancelled := sh.cancelled || fastFail)
  }

  /** The locked region of a task that was cancelled before it got a token. */
  function Skip(sh: Shared): Shared {
    if sh.count == 1
    then sh.(count := 0, cancelled := true, finished := true)
    else sh.(count := sh.count - 1)
  }

  datatype TaskPc =
    | Unspawned
    | AtSelect                                   // waits for a token or for cancellation
    | Skipping                                   // saw the cancellation, not yet in its locked region
    | Running                                    // inside the task body
    | BodyDone(err: Option<Err>)
    | Recorded(err: Option<Err>, current: int)   // past the locked region with this count
    | Announcing(err: Option<Err>)               // the last task, between taskCancel and taskFinish
    | Returning(err: Option<Err>)                // about to give its token back
    | Exited(err: Option<Err>)
    | Skipped

  datatype Outcome = Upstream | Result(err: Option<Err>)

  datatype MainPc =
    | Idle
    | Spawning(next: nat)
    | Selecting
    | CleaningUp(upstream: bool)
    | Waiting(upstream: bool)
    | Returned(outcome: Outcome)

  /** One `Run` call. `log` and `zeros` are history: the failed tasks in completion order, and
      how many goroutines saw the countdown at zero. */
  datatype Run = Run(
    names: seq<string>,
    main: MainPc,
    tasks: seq<TaskPc>,
    sh: Shared,
    ctxDone: bool,
    log: seq<(nat, Err)>,
    zeros: nat)

  /** `limit` is the capacity of the token queue, if Concurrency was called. */
  datatype Group = Group(limit: Option<nat>, fastFail: bool)

  datatype Action =
    | Start | Spawn | SelectCancelled | SelectUpstream | Cleanup | Finish
    | CtxCancel | CtxPropagate
    | SeeCancel(i: nat) | LockSkip(i: nat) | Take(i: nat)
    | BodyReturns(i: nat, e: Option<Err>) | LockRecord(i: nat)
    | LastCancel(i: nat) | LastFinish(i: nat) | GiveBack(i: nat)

  /** When an action of one `Run` can happen, given the tokens in the queue. */
  predicate Enabled(g: Group, tokens: int, r: Run, a: Action) {
    match a
    case Start => r.main.Idle?
    case Spawn => r.main.Spawning?
    case SelectCancelled => r.main.Selecting? && r.sh.cancelled
    case SelectUpstream => r.main.Selecting? && r.ctxDone
    case Cleanup => r.main.CleaningUp?
    case Finish => r.main.Waiting? && r.sh.finished
    case CtxCancel => !r.ctxDone
    case CtxPropagate => !r.main.Idle? && r.ctxDone && !r.sh.cancelled
    case SeeCancel(i) => i < |r.tasks| && r.tasks[i].AtSelect? && r.sh.cancelled
    case LockSkip(i) => i < |r.tasks| && r.tasks[i].Skipping?
    case Take(i) => i < |r.tasks| && r.tasks[i].AtSelect? && 0 < tokens
    case BodyReturns(i, _) => i < |r.tasks| && r.tasks[i].Running?
    case LockRecord(i) => i < |r.tasks| && i < |r.names| && r.tasks[i].BodyDone?
    case LastCancel(i) => i < |r.tasks| && r.tasks[i].Recorded?
    case LastFinish(i) => i < |r.tasks| && r.tasks[i].Announcing?
    case GiveBack(i) => i < |r.tasks| && r.tasks[i].Returning? && (g.limit.Some? ==> tokens < g.limit.value)
  }

  function ApplyMain(g: Group, r: Run, a: Action): Run
    requires Enabled(g, 0, r, a) && !HasTask(a)
  {
    match a
    case Start => r.(main := Spawning(0))
    case Spawn =>
      if r.main.next < |r.tasks|
      then r.(main := Spawning(r.main.next + 1),
              tasks := r.tasks[r.main.next := if g.limit.Some? then AtSelect else Running])
      else r.(main := Selecting)
    case SelectCancelled => r.(main := CleaningUp(false))
    case SelectUpstream => r.(main := CleaningUp(true), sh := r.sh.(cancelled := true))
    case Cleanup => r.(main := Waiting(r.main.upstream))
    case Finish => r.(main := Returned(if r.main.upstream then Upstream else Result(r.sh.err)))
    case CtxCancel => r.(ctxDone := true)
    case CtxPropagate => r.(sh := r.sh.(cancelled := true))
  }

  predicate HasTask(a: Action) {
    !(a.Start? || a.Spawn? || a.SelectCancelled? || a.SelectUpstream? || a.Cleanup? || a.Finish?
      || a.CtxCancel? || a.CtxPropagate?)
  }

  function ApplyTask(g: Group, tokens: int, r: Run, a: Action): Run
    requires Enabled(g, tokens, r, a) && HasTask(a)
  {
    match a
    case SeeCancel(i) => r.(tasks := r.tasks[i := Skipping])
    case LockSkip(i) =>
      var sh := Skip(r.sh);
      r.(tasks := r.tasks[i := Skipped], sh := sh, zeros := r.zeros + if sh.count == 0 then 1 else 0)
    case Take(i) => r.(tasks := r.tasks[i := Running])
    case BodyReturns(i, e) => r.(tasks := r.tasks[i := BodyDone(e)])
    case LockRecord(i) =>
      var e := r.tasks[i].err;
      var sh := Record(r.sh, r.names[i], e, g.fastFail);
      r.(tasks := r.tasks[i := Recorded(e, sh.count)],
         sh := sh,
         log := if e.Some? then r.log + [(i, e.value)] else r.log,
         zeros := r.zeros + if sh.count == 0 then 1 else 0)
    case LastCancel(i) =>
      var e := r.tasks[i].err;
      if r.tasks[i].current == 0
      then r.(tasks := r.tasks[i := Announcing(e)], sh := r.sh.(cancelled := true))
      else r.(tasks := r.tasks[i := Returning(e)])
    case LastFinish(i) => r.(tasks := r.tasks[i := Returning(r.tasks[i].err)], sh := r.sh.(finished := true))
    case GiveBack(i) => r.(tasks := r.tasks[i := Exited(r.tasks[i].err)])
  }

  /** The run after an enabled action. */
  function Apply(g: Group, tokens: int, r: Run, a: Action): Run
    requires Enabled(g, tokens, r, a)
  {
    if HasTask(a) then ApplyTask(g, tokens, r, a) else ApplyMain(g, r, a)
  }

  /** The tokens in the queue after an enabled action. */
  function TokensAfter(g: Group, tokens: int, a: Action): int {
    if g.limit.None? then tokens
    else if a.Take? then tokens - 1
    else if a.GiveBack? then tokens + 1
    else tokens
  }

  // ---------------------------------------------------------------- whole systems and runs

  datatype System = System(tokens: int, runs: seq<Run>)

  function InitRun(names: seq<string>): Run {
    Run(names, Idle, seq(|names|, i => Unspawned), Shared(|names|, None, false, false), false, [], 0)
  }

  /** Concurrency(n) has filled the queue, no `Run` has started yet. */
  function Init(g: Group, calls: seq<seq<string>>): System {
    System(if g.limit.Some? then g.limit.value else 0, seq(|calls|, k requires 0 <= k < |calls| => InitRun(calls[k])))
  }

  predicate StepEnabled(g: Group, s: System, k: nat, a: Action) {
    k < |s.runs| && Enabled(g, s.tokens, s.runs[k], a)
  }

  function Step(g: Group, s: System, k: nat, a: Action): System
    requires StepEnabled(g, s, k, a)
  {
    System(TokensAfter(g, s.tokens, a), s.runs[k := Apply(g, s.tokens, s.runs[k], a)])
  }

  type Schedule = seq<(nat, Action)>

  /** A schedule is possible from `s` when each of its actions is enabled in turn. */
  predicate Possible(g: Group, s: System, sched: Schedule)
    decreases |sched|
  {
    sched != [] ==>
      StepEnabled(g, s, sched[0].0, sched[0].1) && Possible(g, Step(g, s, sched[0].0, sched[0].1), sched[1..])
  }

  function After(g: Group, s: System, sched: Schedule): System
    requires Possible(g, s, sched)
    decreases |sched|
  {
    if sched == [] then s else After(g, Step(g, s, sched[0].0, sched[0].1), sched[1..])
  }

  // ---------------------------------------------------------------- what goroutines contribute

  /** 1 while the goroutine holds a token. */
  function Holds(t: TaskPc): int {
    if t.Running? || t.BodyDone? || t.Recorded? || t.Announcing? || t.Returning? then 1 else 0
  }

  function InBody(t: TaskPc): int { if t.Running? then 1 else 0 }

  /** 1 until the goroutine has decremented the countdown. */
  function Undecided(t: TaskPc): int {
    if t.Unspawned? || t.AtSelect? || t.Skipping? || t.Running? || t.BodyDone? then 1 else 0
  }

  /** 1 for a last task that has yet to call taskFinish. */
  function OwesFinish(t: TaskPc): int {
    if t.Announcing? || (t.Recorded? && t.current == 0) then 1 else 0
  }

  function RunHolds(r: Run): int { Total(Holds, r.tasks) }
  function RunInBody(r: Run): int { Total(InBody, r.tasks) }

  /** The task's body returned `e` and the locked region recorded it. */
  predicate Failed(t: TaskPc, e: Err) {
    (t.Recorded? || t.Announcing? || t.Returning? || t.Exited?) && t.err == Some(e)
  }

  /** The task's body returned nil and the locked region recorded it. */
  predicate Succeeded(t: TaskPc) {
    (t.Recorded? || t.Announcing? || t.Returning? || t.Exited?) && t.err == None
  }

  /** The goroutine never got a token. */
  predicate NeverRan(t: TaskPc) {
    t.Unspawned? || t.AtSelect? || t.Skipping? || t.Skipped?
  }

  predicate WasSkipped(t: TaskPc) { t.Skipping? || t.Skipped? }

  /** The error that Run accumulates from the failures in completion order. */
  function JoinAll(names: seq<string>, log: seq<(nat, Err)>): Option<Err>
    requires forall j :: 0 <= j < |log| ==> log[j].0 < |names|
    ensures JoinAll(names, log).None? <==> log == []
  {
    if log == [] then None
    else
      var last := log[|log| - 1];
      ErrorsJoin(JoinAll(names, log[..|log| - 1]), Some(Label(names[last.0], last.1)))
  }

  /** Takes a left-nested chain of `n` joins apart again. */
  function Unjoin(e: Option<Err>, n: nat): seq<Err>
    decreases n
  {
    if n == 0 || e.None? || !e.value.Joined? then []
    else
      var parts := e.value.errs;
      if |parts| == 1 then parts
      else if |parts| == 2 then Unjoin(Some(parts[0]), n - 1) + [parts[1]]
      else []
  }

  /** The joined error lists exactly the errors of the failed tasks, in completion order, each one
      under its task's name if it has one. */
  lemma {:induction false} JoinKeepsEveryError(names: seq<string>, log: seq<(nat, Err)>)
    requires forall j :: 0 <= j < |log| ==> log[j].0 < |names|
    ensures |Unjoin(JoinAll(names, log), |log|)| == |log|
    ensures forall j :: 0 <= j < |log| ==>
      Unjoin(JoinAll(names, log), |log|)[j] ==
        if names[log[j].0] == "" then log[j].1 else Named(names[log[j].0], log[j].1)
  {
    if log != [] {
      var init := log[..|log| - 1];
      JoinKeepsEveryError(names, init);
      if init == [] {
        assert log == [log[0]];
      } else {
        assert JoinAll(names, init).Some?;
      }
    }
  }

  // ---------------------------------------------------------------- the invariant

  ghost predicate CountInv(r: Run) {
    && |r.tasks| == |r.names|
    && r.sh.count == Total(Undecided, r.tasks)
    && r.zeros == (if r.tasks != [] && r.sh.count == 0 then 1 else 0)
    && Total(OwesFinish, r.tasks) + (if r.sh.finished then 1 else 0) == r.zeros
  }

  ghost predicate SpawnInv(g: Group, r: Run) {
    && (r.main.Spawning? ==> r.main.next <= |r.tasks|)
    && (forall i :: 0 <= i < |r.tasks| ==>
         (r.tasks[i].Unspawned? <==> r.main.Idle? || (r.main.Spawning? && r.main.next <= i)))
    && (g.limit.None? ==> forall i :: 0 <= i < |r.tasks| ==> !r.tasks[i].AtSelect? && !WasSkipped(r.tasks[i]))
    && (g.limit == Some(0) ==> forall i :: 0 <= i < |r.tasks| ==> NeverRan(r.tasks[i]))
    && (r.main.Idle? ==> !r.sh.cancelled)
  }

  ghost predicate CancelInv(g: Group, r: Run) {
    && (r.sh.cancelled ==>
         r.ctxDone || (g.fastFail && r.log != []) || (r.tasks != [] && r.sh.count == 0))
    && (g.fastFail && r.log != [] ==> r.sh.cancelled)
    && (r.main.CleaningUp? || r.main.Waiting? || r.main.Returned? ==> r.sh.cancelled)
    && (r.sh.finished ==> r.sh.cancelled)
    && (forall i :: 0 <= i < |r.tasks| && r.tasks[i].Announcing? ==> r.sh.cancelled)
    && (forall i :: 0 <= i < |r.tasks| && WasSkipped(r.tasks[i]) ==> r.ctxDone || (g.fastFail && r.log != []))
    && (r.main.CleaningUp? && r.main.upstream ==> r.ctxDone)
    && (r.main.Waiting? && r.main.upstream ==> r.ctxDone)
    && (r.main.Returned? && r.main.outcome.Upstream? ==> r.ctxDone)
  }

  /** The log holds each failed task once, with its error. */
  ghost predicate LogMatches(tasks: seq<TaskPc>, log: seq<(nat, Err)>) {
    && (forall j :: 0 <= j < |log| ==> log[j].0 < |tasks| && Failed(tasks[log[j].0], log[j].1))
    && (forall i, e :: 0 <= i < |tasks| && Failed(tasks[i], e) ==> (i, e) in log)
    && (forall j, k :: 0 <= j < k < |log| ==> log[j].0 != log[k].0)
  }

  ghost predicate LogInv(r: Run) {
    && |r.tasks| == |r.names|
    && LogMatches(r.tasks, r.log)
    && r.sh.err == JoinAll(r.names, r.log)
    && (r.main.Returned? ==> r.sh.finished)
    && (r.main.Returned? && r.main.outcome.Result? ==> r.main.outcome.err == r.sh.err)
  }

  ghost predicate RunInv(g: Group, r: Run) {
    CountInv(r) && SpawnInv(g, r) && CancelInv(g, r) && LogInv(r)
  }

  ghost predicate Inv(g: Group, s: System) {
    && (forall k :: 0 <= k < |s.runs| ==> RunInv(g, s.runs[k]))
    && (g.limit.Some? ==> 0 <= s.tokens && s.tokens + Total(RunHolds, s.runs) == g.limit.value)
  }

  lemma InitInv(g: Group, calls: seq<seq<string>>)
    ensures Inv(g, Init(g, calls))
  {
    var s := Init(g, calls);
    forall k | 0 <= k < |s.runs|
      ensures RunInv(g, s.runs[k]) && RunHolds(s.runs[k]) == 0
    {
      var r := s.runs[k];
      TotalConstant(Undecided, r.tasks, 1);
      TotalConstant(OwesFinish, r.tasks, 0);
      TotalConstant(Holds, r.tasks, 0);
    }
    assert forall r :: r in s.runs ==> RunHolds(r) == 0;
    TotalConstant(RunHolds, s.runs, 0);
  }

  /** The undecided tasks are the ones the countdown still counts. */
  lemma CountBounds(r: Run)
    requires CountInv(r)
    ensures 0 <= r.sh.count
    ensures forall i :: 0 <= i < |r.tasks| ==> Undecided(r.tasks[i]) <= r.sh.count
    ensures forall i :: 0 <= i < |r.tasks| ==> OwesFinish(r.tasks[i]) <= Total(OwesFinish, r.tasks)
    ensures 0 <= Total(OwesFinish, r.tasks)
  {
    TotalNonNegative(Undecided, r.tasks);
    TotalNonNegative(OwesFinish, r.tasks);
  }

  lemma CountStepTask(g: Group, tokens: int, r: Run, a: Action)
    requires CountInv(r) && Enabled(g, tokens, r, a) && HasTask(a)
    ensures CountInv(ApplyTask(g, tokens, r, a))
  {
    CountBounds(r);
    var r' := ApplyTask(g, tokens, r, a);
    TotalUpdate(Undecided, r.tasks, a.i, r'.tasks[a.i]);
    TotalUpdate(OwesFinish, r.tasks, a.i, r'.tasks[a.i]);
    CountBoundsAfter(r');
  }

  lemma CountBoundsAfter(r: Run)
    ensures 0 <= Total(OwesFinish, r.tasks)
  {
    TotalNonNegative(OwesFinish, r.tasks);
  }

  lemma CountStepMain(g: Group, r: Run, a: Action)
    requires CountInv(r) && SpawnInv(g, r) && Enabled(g, 0, r, a) && !HasTask(a)
    ensures CountInv(ApplyMain(g, r, a))
  {
    if a.Spawn? && r.main.next < |r.tasks| {
      var t := ApplyMain(g, r, a).tasks[r.main.next];
      TotalUpdate(Undecided, r.tasks, r.main.next, t);
      TotalUpdate(OwesFinish, r.tasks, r.main.next, t);
    }
  }

  lemma SpawnStepMain(g: Group, r: Run, a: Action)
    requires RunInv(g, r) && Enabled(g, 0, r, a) && !HasTask(a)
    ensures SpawnInv(g, ApplyMain(g, r, a))
  {
  }

  lemma SpawnStepTask(g: Group, tokens: int, r: Run, a: Action)
    requires RunInv(g, r) && Enabled(g, tokens, r, a) && HasTask(a)
    requires g.limit.Some? ==> tokens <= g.limit.value
    ensures SpawnInv(g, ApplyTask(g, tokens, r, a))
  {
    hide CountInv, CancelInv, LogInv;
    var r' := ApplyTask(g, tokens, r, a);
    assert r'.main == r.main;
    assert forall j :: 0 <= j < |r.tasks| && j != a.i ==> r'.tasks[j] == r.tasks[j];
    assert !r.tasks[a.i].Unspawned? && !r'.tasks[a.i].Unspawned?;
  }

  lemma CancelStepMain(g: Group, r: Run, a: Action)
    requires RunInv(g, r) && Enabled(g, 0, r, a) && !HasTask(a)
    ensures CancelInv(g, ApplyMain(g, r, a))
  {
  }

  lemma CancelStepQuiet(g: Group, tokens: int, r: Run, a: Action)
    requires RunInv(g, r) && Enabled(g, tokens, r, a) && HasTask(a) && !a.LockRecord? && !a.LockSkip?
    ensures CancelInv(g, ApplyTask(g, tokens, r, a))
  {
    CountBounds(r);
  }

  lemma CancelStepLocked(g: Group, tokens: int, r: Run, a: Action)
    requires RunInv(g, r) && Enabled(g, tokens, r, a) && (a.LockRecord? || a.LockSkip?)
    ensures CancelInv(g, ApplyTask(g, tokens, r, a))
  {
    CountBounds(r);
  }

  lemma LogMatchesSameFailures(before: seq<TaskPc>, after: seq<TaskPc>, log: seq<(nat, Err)>)
    requires LogMatches(before, log) && |before| == |after|
    requires forall i, e :: 0 <= i < |before| ==> (Failed(before[i], e) <==> Failed(after[i], e))
    ensures LogMatches(after, log)
  {
  }

  lemma LogMatchesNewFailure(before: seq<TaskPc>, i: nat, t: TaskPc, e: Err, log: seq<(nat, Err)>)
    requires LogMatches(before, log) && i < |before|
    requires forall x :: !Failed(before[i], x)
    requires forall x :: Failed(t, x) <==> x == e
    ensures LogMatches(before[i := t], log + [(i, e)])
  {
    var after, log' := before[i := t], log + [(i, e)];
    assert forall j :: 0 <= j < |log| ==> log[j].0 != i;
    forall k, x | 0 <= k < |after| && Failed(after[k], x)
      ensures (k, x) in log'
    {
      if k == i {
        assert log'[|log|] == (i, e);
      } else {
        assert (k, x) in log;
      }
    }
  }

  lemma LogStepQuiet(g: Group, tokens: int, r: Run, a: Action)
    requires RunInv(g, r) && Enabled(g, tokens, r, a) && HasTask(a) && !a.LockRecord?
    ensures LogInv(ApplyTask(g, tokens, r, a))
  {
    var i, r' := a.i, ApplyTask(g, tokens, r, a);
    QuietShape(g, tokens, r, a);
    assert LogInv(r);
    hide *;
    forall e
      ensures Failed(r.tasks[i], e) <==> Failed(r'.tasks[i], e)
    {
      QuietFailure(g, tokens, r, a, e);
    }
    LogInvParts(r);
    LogMatchesSameFailures(r.tasks, r'.tasks, r.log);
    LogInvFrom(r, r');
  }

  /** Such an action changes one task and nothing that the log depends on. */
  lemma QuietShape(g: Group, tokens: int, r: Run, a: Action)
    requires Enabled(g, tokens, r, a) && HasTask(a) && !a.LockRecord?
    ensures var r' := ApplyTask(g, tokens, r, a);
      && a.i < |r.tasks| && |r'.tasks| == |r.tasks| && (forall j :: 0 <= j < |r.tasks| && j != a.i ==> r'.tasks[j] == r.tasks[j])
      && r'.names == r.names && r'.log == r.log && r'.sh.err == r.sh.err && r'.main == r.main
      && (r.sh.finished ==> r'.sh.finished)
  {
  }

  lemma QuietFailure(g: Group, tokens: int, r: Run, a: Action, e: Err)
    requires Enabled(g, tokens, r, a) && HasTask(a) && !a.LockRecord? && a.i < |r.tasks|
    ensures Failed(r.tasks[a.i], e) <==> Failed(ApplyTask(g, tokens, r, a).tasks[a.i], e)
  {
  }

  lemma LogInvParts(r: Run)
    requires LogInv(r)
    ensures LogMatches(r.tasks, r.log)
  {
  }

  lemma LogInvFrom(r: Run, r': Run)
    requires LogInv(r) && |r'.tasks| == |r.tasks| && LogMatches(r'.tasks, r'.log)
    requires r'.names == r.names && r'.log == r.log && r'.sh.err == r.sh.err && r'.main == r.main
    requires r.sh.finished ==> r'.sh.finished
    ensures LogInv(r')
  {
  }

  lemma LogStepRecord(g: Group, tokens: int, r: Run, i: nat)
    requires RunInv(g, r) && Enabled(g, tokens, r, LockRecord(i))
    ensures LogInv(ApplyTask(g, tokens, r, LockRecord(i)))
  {
    CountBounds(r);
    var r' := ApplyTask(g, tokens, r, LockRecord(i));
    var e := r.tasks[i].err;
    if e.Some? {
      LogMatchesNewFailure(r.tasks, i, r'.tasks[i], e.value, r.log);
      assert r'.log[..|r'.log| - 1] == r.log;
    } else {
      LogMatchesSameFailures(r.tasks, r'.tasks, r.log);
    }
  }

  lemma LogStepMain(g: Group, r: Run, a: Action)
    requires RunInv(g, r) && Enabled(g, 0, r, a) && !HasTask(a)
    ensures LogInv(ApplyMain(g, r, a))
  {
    hide CountInv, CancelInv, JoinAll;
    var r' := ApplyMain(g, r, a);
    assert forall i, e :: 0 <= i < |r.tasks| ==> (Failed(r'.tasks[i], e) <==> Failed(r.tasks[i], e));
  }

  lemma RunStep(g: Group, tokens: int, r: Run, a: Action)
    requires RunInv(g, r) && Enabled(g, tokens, r, a)
    requires g.limit.Some? ==> tokens <= g.limit.value
    ensures RunInv(g, Apply(g, tokens, r, a))
  {
    if HasTask(a) {
      CountStepTask(g, tokens, r, a);
      SpawnStepTask(g, tokens, r, a);
      if a.LockRecord? {
        CancelStepLocked(g, tokens, r, a);
        LogStepRecord(g, tokens, r, a.i);
      } else {
        LogStepQuiet(g, tokens, r, a);
        if a.LockSkip? {
          CancelStepLocked(g, tokens, r, a);
        } else {
          CancelStepQuiet(g, tokens, r, a);
        }
      }
    } else {
      CountStepMain(g, r, a);
      CancelStepMain(g, r, a);
      SpawnStepMain(g, r, a);
      LogStepMain(g, r, a);
    }
  }

  /** A token leaves the queue exactly when a goroutine starts to hold it, and comes back when it lets go. */
  lemma TokenStep(g: Group, tokens: int, r: Run, a: Action)
    requires RunInv(g, r) && Enabled(g, tokens, r, a) && g.limit.Some?
    ensures TokensAfter(g, tokens, a) + RunHolds(Apply(g, tokens, r, a)) == tokens + RunHolds(r)
  {
    hide CountInv, CancelInv, LogInv;
    if HasTask(a) {
      TotalUpdate(Holds, r.tasks, a.i, Apply(g, tokens, r, a).tasks[a.i]);
    } else if a.Spawn? && r.main.next < |r.tasks| {
      TotalUpdate(Holds, r.tasks, r.main.next, AtSelect);
    }
  }

  lemma TokensWithinLimit(g: Group, s: System)
    requires Inv(g, s) && g.limit.Some?
    ensures s.tokens <= g.limit.value
  {
    forall r | r in s.runs
      ensures 0 <= RunHolds(r)
    {
      TotalNonNegative(Holds, r.tasks);
    }
    TotalNonNegative(RunHolds, s.runs);
  }

  lemma StepInv(g: Group, s: System, k: nat, a: Action)
    requires Inv(g, s) && StepEnabled(g, s, k, a)
    ensures Inv(g, Step(g, s, k, a))
  {
    var r' := Apply(g, s.tokens, s.runs[k], a);
    if g.limit.Some? {
      TokensWithinLimit(g, s);
    }
    RunStep(g, s.tokens, s.runs[k], a);
    if g.limit.Some? {
      TokenStep(g, s.tokens, s.runs[k], a);
      TotalUpdate(RunHolds, s.runs, k, r');
    }
  }

  lemma {:induction false} ScheduleInv(g: Group, s: System, sched: Schedule)
    requires Inv(g, s) && Possible(g, s, sched)
    ensures Inv(g, After(g, s, sched))
    decreases |sched|
  {
    if sched != [] {
      StepInv(g, s, sched[0].0, sched[0].1);
      ScheduleInv(g, Step(g, s, sched[0].0, sched[0].1), sched[1..]);
    }
  }

  /** Every state a schedule reaches satisfies the invariant. */
  lemma ReachableInv(g: Group, calls: seq<seq<string>>, sched: Schedule)
    requires Possible(g, Init(g, calls), sched)
    ensures Inv(g, After(g, Init(g, calls), sched))
  {
    InitInv(g, calls);
    ScheduleInv(g, Init(g, calls), sched);
  }
}
