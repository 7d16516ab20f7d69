/** What `Group.Run` promises, over every schedule of every set of overlapping `Run` calls. */
module TaskGroupTheorems {
  import opened Prelude
  import opened Sums
  import opened TaskGroup

  // ---------------------------------------------------------------- concurrency bound

  lemma HoldersWithinLimit(g: Group, s: System)
    requires Inv(g, s) && g.limit.Some?
    ensures forall k :: 0 <= k < |s.runs| ==> RunInBody(s.runs[k]) <= RunHolds(s.runs[k])
    ensures forall k :: 0 <= k < |s.runs| ==> 0 <= RunHolds(s.runs[k]) <= g.limit.value - s.tokens
    ensures Total(RunInBody, s.runs) <= Total(RunHolds, s.runs)
  {
    forall r | r in s.runs
      ensures 0 <= RunHolds(r) && RunInBody(r) <= RunHolds(r)
    {
      TotalNonNegative(Holds, r.tasks);
      TotalMonotone(InBody, Holds, r.tasks);
    }
    TotalMonotone(RunInBody, RunHolds, s.runs);
    TotalNonNegative(RunHolds, s.runs);
  }

  /** Tokens are conserved over overlapping runs: at most `n` task bodies run at once, and a
      goroutine that gives its token back always finds room in the queue. */
  lemma ConcurrencyBound(g: Group, calls: seq<seq<string>>, sched: Schedule)
    requires g.limit.Some? && Possible(g, Init(g, calls), sched)
    ensures var s := After(g, Init(g, calls), sched);
      && s.tokens + Total(RunHolds, s.runs) == g.limit.value
      && 0 <= s.tokens <= g.limit.value
      && Total(RunInBody, s.runs) <= g.limit.value
      && forall k, i :: 0 <= k < |s.runs| && 0 <= i < |s.runs[k].tasks| && s.runs[k].tasks[i].Returning? ==>
           StepEnabled(g, s, k, GiveBack(i))
  {
    ReachableInv(g, calls, sched);
    var s := After(g, Init(g, calls), sched);
    HoldersWithinLimit(g, s);
    TokensWithinLimit(g, s);
    forall k, i | 0 <= k < |s.runs| && 0 <= i < |s.runs[k].tasks| && s.runs[k].tasks[i].Returning?
      ensures StepEnabled(g, s, k, GiveBack(i))
    {
      TotalNonNegative(Holds, s.runs[k].tasks);
      assert Holds(s.runs[k].tasks[i]) == 1;
    }
  }

  // ---------------------------------------------------------------- result

  lemma DecidedWhenZero(r: Run)
    requires CountInv(r) && r.sh.count == 0
    ensures forall i :: 0 <= i < |r.tasks| ==> Undecided(r.tasks[i]) == 0
  {
    TotalNonNegative(Undecided, r.tasks);
  }

  lemma OwesNothing(r: Run)
    requires CountInv(r) && r.sh.finished
    ensures r.sh.count == 0 && r.zeros == 1
    ensures forall i :: 0 <= i < |r.tasks| ==> OwesFinish(r.tasks[i]) == 0 && Undecided(r.tasks[i]) == 0
  {
    TotalNonNegative(OwesFinish, r.tasks);
    DecidedWhenZero(r);
  }

  /** A run that returned has seen every goroutine decrement the countdown, and exactly one of
      them saw zero. */
  lemma ReturnsAfterEveryTask(g: Group, calls: seq<seq<string>>, sched: Schedule, k: nat)
    requires Possible(g, Init(g, calls), sched) && k < |After(g, Init(g, calls), sched).runs|
    requires After(g, Init(g, calls), sched).runs[k].main.Returned?
    ensures var r := After(g, Init(g, calls), sched).runs[k];
      && r.sh.count == 0 && r.zeros == 1
      && forall i :: 0 <= i < |r.tasks| ==> Undecided(r.tasks[i]) == 0
  {
    ReachableInv(g, calls, sched);
    OwesNothing(After(g, Init(g, calls), sched).runs[k]);
  }

  lemma {:induction false} SameRuns(g: Group, s: System, sched: Schedule, k: nat)
    requires Possible(g, s, sched) && k < |s.runs|
    ensures |After(g, s, sched).runs| == |s.runs| && After(g, s, sched).runs[k].names == s.runs[k].names
    decreases |sched|
  {
    if sched != [] {
      SameRuns(g, Step(g, s, sched[0].0, sched[0].1), sched[1..], k);
    }
  }

  // ---------------------------------------------------------------- every run returns

  /** Steps of the program itself: not a new `Run` call and not the caller cancelling its context. */
  predicate Internal(a: Action) { !a.Start? && !a.CtxCancel? }

  function TaskRank(t: TaskPc): int {
    match t
    case Unspawned => 8
    case AtSelect => 7
    case Running => 6
    case BodyDone(_) => 5
    case Recorded(_, _) => 4
    case Announcing(_) => 3
    case Returning(_) => 2
    case Skipping => 1
    case Exited(_) => 0
    case Skipped => 0
  }

  function MainRank(m: MainPc, n: nat): int {
    match m
    case Idle => n + 6
    case Spawning(next) => n - next + 5
    case Selecting => 4
    case CleaningUp(_) => 3
    case Waiting(_) => 2
    case Returned(_) => 0
  }

  function RunRank(r: Run): int {
    MainRank(r.main, |r.tasks|) + Total(TaskRank, r.tasks)
    + (if r.ctxDone then 0 else 1) + (if r.sh.cancelled then 0 else 1)
  }

  function Rank(s: System): int { Total(RunRank, s.runs) }

  lemma RankNonNegative(g: Group, s: System)
    requires Inv(g, s)
    ensures 0 <= Rank(s)
  {
    forall r | r in s.runs
      ensures 0 <= RunRank(r)
    {
      TotalNonNegative(TaskRank, r.tasks);
    }
    TotalNonNegative(RunRank, s.runs);
  }

  lemma TaskMovesDown(g: Group, tokens: int, r: Run, a: Action)
    requires Enabled(g, tokens, r, a) && HasTask(a)
    ensures var r' := ApplyTask(g, tokens, r, a);
      && r'.tasks == r.tasks[a.i := r'.tasks[a.i]] && TaskRank(r'.tasks[a.i]) < TaskRank(r.tasks[a.i])
      && r'.main == r.main && r'.ctxDone == r.ctxDone && (r.sh.cancelled ==> r'.sh.cancelled)
  {
  }

  lemma TaskStepLowersRank(g: Group, tokens: int, r: Run, a: Action)
    requires Enabled(g, tokens, r, a) && HasTask(a)
    ensures RunRank(ApplyTask(g, tokens, r, a)) < RunRank(r)
  {
    TaskMovesDown(g, tokens, r, a);
    TotalUpdate(TaskRank, r.tasks, a.i, ApplyTask(g, tokens, r, a).tasks[a.i]);
  }

  lemma MainStepLowersRank(g: Group, r: Run, a: Action)
    requires RunInv(g, r) && Enabled(g, 0, r, a) && !HasTask(a)
    ensures RunRank(ApplyMain(g, r, a)) < RunRank(r)
  {
    if a.Spawn? && r.main.next < |r.tasks| {
      TotalUpdate(TaskRank, r.tasks, r.main.next, ApplyMain(g, r, a).tasks[r.main.next]);
    }
  }

  /** Every action, internal or not, lowers the rank. */
  lemma StepLowersRank(g: Group, s: System, k: nat, a: Action)
    requires Inv(g, s) && StepEnabled(g, s, k, a)
    ensures Rank(Step(g, s, k, a)) < Rank(s)
  {
    if HasTask(a) {
      TaskStepLowersRank(g, s.tokens, s.runs[k], a);
    } else {
      MainStepLowersRank(g, s.runs[k], a);
    }
    TotalUpdate(RunRank, s.runs, k, Apply(g, s.tokens, s.runs[k], a));
  }

  lemma {:induction false} ScheduleBound(g: Group, s: System, sched: Schedule)
    requires Inv(g, s) && Possible(g, s, sched)
    ensures |sched| <= Rank(s)
    decreases |sched|
  {
    if sched == [] {
      RankNonNegative(g, s);
    } else {
      var s' := Step(g, s, sched[0].0, sched[0].1);
      StepInv(g, s, sched[0].0, sched[0].1);
      StepLowersRank(g, s, sched[0].0, sched[0].1);
      ScheduleBound(g, s', sched[1..]);
    }
  }

  /** No schedule goes on forever: its length is bounded before it starts. */
  lemma EveryScheduleEnds(g: Group, calls: seq<seq<string>>, sched: Schedule)
    requires Possible(g, Init(g, calls), sched)
    ensures |sched| <= Rank(Init(g, calls))
  {
    InitInv(g, calls);
    ScheduleBound(g, Init(g, calls), sched);
  }

  /** The goroutine is past its last step. */
  predicate Gone(t: TaskPc) { t.Exited? || t.Skipped? }

  predicate Finished(r: Run) {
    r.main.Returned? && forall i :: 0 <= i < |r.tasks| ==> Gone(r.tasks[i])
  }

  /** A goroutine that holds a token can always take its next step. */
  lemma HolderMoves(g: Group, s: System, k: nat, i: nat) returns (a: Action)
    requires Inv(g, s) && k < |s.runs| && i < |s.runs[k].tasks| && Holds(s.runs[k].tasks[i]) == 1
    ensures StepEnabled(g, s, k, a) && Internal(a)
  {
    var t := s.runs[k].tasks[i];
    if t.Running? { a := BodyReturns(i, None); }
    else if t.BodyDone? { a := LockRecord(i); }
    else if t.Recorded? { a := LastCancel(i); }
    else if t.Announcing? { a := LastFinish(i); }
    else {
      a := GiveBack(i);
      if g.limit.Some? {
        HoldersWithinLimit(g, s);
        TotalNonNegative(Holds, s.runs[k].tasks);
      }
    }
  }

  lemma AllGone(g: Group, r: Run)
    requires RunInv(g, r) && r.tasks != [] && forall i :: 0 <= i < |r.tasks| ==> Gone(r.tasks[i])
    ensures r.sh.finished && r.sh.cancelled
  {
    TotalConstant(Undecided, r.tasks, 0);
    TotalConstant(OwesFinish, r.tasks, 0);
  }

  /** Something in the group can move while a started run with tasks has not finished. */
  lemma Progress(g: Group, s: System, k: nat) returns (j: nat, a: Action)
    requires Inv(g, s) && k < |s.runs| && !s.runs[k].main.Idle? && !Finished(s.runs[k])
    requires s.runs[k].tasks != [] && (g.limit != Some(0) || s.runs[k].ctxDone)
    ensures StepEnabled(g, s, j, a) && Internal(a)
  {
    hide LogInv;
    var r := s.runs[k];
    j := k;
    if r.main.Spawning? { a := Spawn; return; }
    if r.main.CleaningUp? { a := Cleanup; return; }
    if r.ctxDone && !r.sh.cancelled { a := CtxPropagate; return; }
    if i :| 0 <= i < |r.tasks| && !Gone(r.tasks[i]) {
      if r.tasks[i].Skipping? { a := LockSkip(i); return; }
      if Holds(r.tasks[i]) == 1 { a := HolderMoves(g, s, k, i); return; }
      assert r.tasks[i].AtSelect?;
      if r.sh.cancelled { a := SeeCancel(i); return; }
      if 0 < s.tokens { a := Take(i); return; }
      j := TotalWitness(RunHolds, s.runs);
      var h := TotalWitness(Holds, s.runs[j].tasks);
      a := HolderMoves(g, s, j, h);
    } else {
      AllGone(g, r);
      a := if r.main.Selecting? then SelectCancelled else Finish;
    }
  }

  lemma NeverRanNeverFailed(t: TaskPc, e: Err)
    ensures NeverRan(t) ==> !Failed(t, e)
  {
  }

  lemma NothingLogged(g: Group, r: Run)
    requires RunInv(g, r) && g.limit == Some(0)
    ensures r.log == []
  {
    forall i, e | 0 <= i < |r.tasks|
      ensures !Failed(r.tasks[i], e)
    {
      NeverRanNeverFailed(r.tasks[i], e);
    }
  }

  /** Without tasks, or with an empty queue and a live context, the countdown never ends. */
  lemma NeverFinishes(g: Group, s: System, k: nat)
    requires Inv(g, s) && k < |s.runs|
    requires s.runs[k].tasks == [] || (g.limit == Some(0) && !s.runs[k].ctxDone)
    ensures !s.runs[k].main.Returned?
  {
    var r := s.runs[k];
    if r.tasks != [] {
      NothingLogged(g, r);
    }
    if r.main.Returned? {
      OwesNothing(r);
    }
  }

  /** Nothing is left to happen but new calls and cancellations by callers. */
  ghost predicate Settled(g: Group, s: System) {
    forall k, a :: StepEnabled(g, s, k, a) ==> !Internal(a)
  }

  /** A started run gets to its end, whatever the interleaving with other runs of the group,
      exactly when it has a task and either the queue has room for one or its context was
      cancelled. */
  lemma ReturnsExactlyWhen(g: Group, calls: seq<seq<string>>, sched: Schedule, k: nat)
    requires Possible(g, Init(g, calls), sched) && k < |calls|
    requires Settled(g, After(g, Init(g, calls), sched))
    ensures |After(g, Init(g, calls), sched).runs| == |calls|
    ensures var r := After(g, Init(g, calls), sched).runs[k];
      !r.main.Idle? ==>
        && (r.main.Returned? <==> calls[k] != [] && (g.limit != Some(0) || r.ctxDone))
        && (r.main.Returned? ==> Finished(r))
  {
    var s := After(g, Init(g, calls), sched);
    ReachableInv(g, calls, sched);
    SameRuns(g, Init(g, calls), sched, k);
    var r := s.runs[k];
    if !r.main.Idle? {
      if r.tasks == [] || (g.limit == Some(0) && !r.ctxDone) {
        NeverFinishes(g, s, k);
      } else if !Finished(r) {
        var j, a := Progress(g, s, k);
        assert false;
      }
    }
  }
}
