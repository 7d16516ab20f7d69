/**
 `Group.Run` seen through its schedule alone: which phases a call goes through, what each goroutine
 does, which failures are recorded, when fast-fail has cancelled, and what is returned. Nothing here
 is said in terms of how an action changes the state.
 */
module TaskGroupTraces {
  import opened Prelude
  import opened Sums
  import opened TaskGroup
  import opened TaskGroupTheorems

  // ---------------------------------------------------------------- the caller's goroutine

  predicate OfMain(a: Action) {
    a.Start? || a.Spawn? || a.SelectCancelled? || a.SelectUpstream? || a.Cleanup? || a.Finish?
  }

  /** What the caller's goroutine of run `k` does in a schedule. */
  function MainActions(sched: Schedule, k: nat): seq<Action> {
    if sched == [] then []
    else (if sched[0].0 == k && OfMain(sched[0].1) then [sched[0].1] else []) + MainActions(sched[1..], k)
  }

  function Spawns(i: nat): seq<Action> { if i == 0 then [] else Spawns(i - 1) + [Spawn] }

  /** Starting `n` goroutines and leaving the loop, then one branch of the select, the clean-up, the
      wait, and the return. */
  function Phases(m: MainPc, n: nat): seq<Action> {
    match m
    case Idle => []
    case Spawning(next) => [Start] + Spawns(next)
    case Selecting => [Start] + Spawns(n + 1)
    case CleaningUp(upstream) => [Start] + Spawns(n + 1) + [Branch(upstream)]
    case Waiting(upstream) => [Start] + Spawns(n + 1) + [Branch(upstream), Cleanup]
    case Returned(outcome) => [Start] + Spawns(n + 1) + [Branch(outcome.Upstream?), Cleanup, TaskGroup.Finish]
  }

  function Branch(upstream: bool): Action { if upstream then SelectUpstream else SelectCancelled }

  lemma MainStep(g: Group, r: Run, a: Action)
    requires SpawnInv(g, r) && Enabled(g, 0, r, a) && OfMain(a)
    ensures Phases(ApplyMain(g, r, a).main, |r.tasks|) == Phases(r.main, |r.tasks|) + [a]
  {
    assert [] + [Start] == [Start] + Spawns(0);
    var front := [Start] + Spawns(|r.tasks| + 1);
    assert forall x: Action, y: Action :: front + [x, y] == (front + [x]) + [y];
    assert forall x: Action, y: Action, z: Action :: front + [x, y, z] == (front + [x, y]) + [z];
    if a.Spawn? {
      assert ([Start] + Spawns(r.main.next)) + [Spawn] == [Start] + Spawns(r.main.next + 1);
    }
  }

  lemma OtherStep(g: Group, tokens: int, r: Run, a: Action)
    requires Enabled(g, tokens, r, a)
    ensures |Apply(g, tokens, r, a).tasks| == |r.tasks| && Apply(g, tokens, r, a).names == r.names
    ensures !OfMain(a) ==> Apply(g, tokens, r, a).main == r.main
  {
  }

  /** One step, on every run. */
  lemma MainAfterStep(g: Group, s: System, x: (nat, Action), k: nat)
    requires Inv(g, s) && StepEnabled(g, s, x.0, x.1) && k < |s.runs|
    ensures var s' := Step(g, s, x.0, x.1);
      && |s'.runs| == |s.runs| && |s'.runs[k].tasks| == |s.runs[k].tasks| && s'.runs[k].names == s.runs[k].names
      && Phases(s'.runs[k].main, |s.runs[k].tasks|) ==
           Phases(s.runs[k].main, |s.runs[k].tasks|) + if x.0 == k && OfMain(x.1) then [x.1] else []
  {
    var p := Phases(s.runs[k].main, |s.runs[k].tasks|);
    assert p + [] == p;
    OtherStep(g, s.tokens, s.runs[x.0], x.1);
    if x.0 == k && OfMain(x.1) {
      assert RunInv(g, s.runs[k]);
      MainStep(g, s.runs[k], x.1);
    }
  }

  lemma {:induction false} MainTrace(g: Group, s: System, sched: Schedule, k: nat)
    requires Inv(g, s) && Possible(g, s, sched) && k < |s.runs|
    ensures var s' := After(g, s, sched);
      && |s'.runs| == |s.runs| && |s'.runs[k].tasks| == |s.runs[k].tasks| && s'.runs[k].names == s.runs[k].names
      && Phases(s'.runs[k].main, |s.runs[k].tasks|) == Phases(s.runs[k].main, |s.runs[k].tasks|) + MainActions(sched, k)
    decreases |sched|
  {
    var n, p := |s.runs[k].tasks|, Phases(s.runs[k].main, |s.runs[k].tasks|);
    if sched == [] {
      assert p + [] == p;
    } else {
      var x, s1 := sched[0], Step(g, s, sched[0].0, sched[0].1);
      hide Phases, Inv, Step, MainActions;
      MainAfterStep(g, s, x, k);
      StepInv(g, s, x.0, x.1);
      MainTrace(g, s1, sched[1..], k);
      MainActionsCons(sched, k);
      Regroup(p, if x.0 == k && OfMain(x.1) then [x.1] else [], MainActions(sched[1..], k));
    }
  }

  lemma MainActionsCons(sched: Schedule, k: nat)
    requires sched != []
    ensures MainActions(sched, k) ==
      (if sched[0].0 == k && OfMain(sched[0].1) then [sched[0].1] else []) + MainActions(sched[1..], k)
  {
  }

  lemma Regroup(a: seq<Action>, b: seq<Action>, c: seq<Action>)
    ensures (a + b) + c == a + (b + c)
  {
  }

  /** At every point of every schedule the caller's goroutine has gone through exactly the phases of
      Run, in order: goroutines first, one branch of the select, the clean-up once, the wait, the
      return. It returns the upstream error exactly if it took that branch. */
  lemma PhasesInOrder(g: Group, calls: seq<seq<string>>, sched: Schedule, k: nat)
    requires Possible(g, Init(g, calls), sched) && k < |calls|
    ensures |After(g, Init(g, calls), sched).runs| == |calls|
    ensures var r := After(g, Init(g, calls), sched).runs[k];
      && r.names == calls[k] && |r.tasks| == |calls[k]|
      && MainActions(sched, k) == Phases(r.main, |calls[k]|)
  {
    InitInv(g, calls);
    MainTrace(g, Init(g, calls), sched, k);
    assert [] + MainActions(sched, k) == MainActions(sched, k);
  }

  // ---------------------------------------------------------------- the tasks' goroutines

  predicate OfTask(a: Action, i: nat) { HasTask(a) && a.i == i }

  /** What the goroutine of task `i` of run `k` does in a schedule. */
  function TaskActions(sched: Schedule, k: nat, i: nat): seq<Action> {
    if sched == [] then []
    else TaskActions(sched[..|sched| - 1], k, i)
         + if sched[|sched| - 1].0 == k && OfTask(sched[|sched| - 1].1, i) then [sched[|sched| - 1].1] else []
  }

  /** A goroutine that may run its body has a token, if there is a queue. */
  function Entered(limited: bool, i: nat): seq<Action> { if limited then [Take(i)] else [] }

  function Ran(limited: bool, i: nat, e: Option<Err>): seq<Action> {
    Entered(limited, i) + [BodyReturns(i, e), LockRecord(i)]
  }

  /** How a goroutine gets where it is: skipped, or through its body with the error `e` that the body
      returned, which is recorded once. */
  predicate Path(limited: bool, i: nat, t: TaskPc, acts: seq<Action>) {
    match t
    case Unspawned => acts == []
    case AtSelect => limited && acts == []
    case Skipping => limited && acts == [SeeCancel(i)]
    case Skipped => limited && acts == [SeeCancel(i), LockSkip(i)]
    case Running => acts == Entered(limited, i)
    case BodyDone(e) => acts == Entered(limited, i) + [BodyReturns(i, e)]
    case Recorded(e, _) => acts == Ran(limited, i, e)
    case Announcing(e) => acts == Ran(limited, i, e) + [LastCancel(i)]
    case Returning(e) =>
      acts == Ran(limited, i, e) + [LastCancel(i)] || acts == Ran(limited, i, e) + [LastCancel(i), LastFinish(i)]
    case Exited(e) =>
      || acts == Ran(limited, i, e) + [LastCancel(i), GiveBack(i)]
      || acts == Ran(limited, i, e) + [LastCancel(i), LastFinish(i), GiveBack(i)]
  }

  lemma PathStep(g: Group, tokens: int, r: Run, a: Action, i: nat, acts: seq<Action>)
    requires Enabled(g, tokens, r, a) && i < |r.tasks| && Path(g.limit.Some?, i, r.tasks[i], acts)
    requires SpawnInv(g, r)
    ensures |Apply(g, tokens, r, a).tasks| == |r.tasks|
    ensures Path(g.limit.Some?, i, Apply(g, tokens, r, a).tasks[i], acts + if OfTask(a, i) then [a] else [])
  {
    assert acts + [] == acts;
    if OfTask(a, i) && !a.Take? && !a.SeeCancel? {
      assert forall x: Action, y: Action :: acts + [x, y] == (acts + [x]) + [y];
      TwoMore(Entered(g.limit.Some?, i));
      if r.tasks[i].Recorded? || r.tasks[i].Announcing? || r.tasks[i].Returning? {
        TwoMore(Ran(g.limit.Some?, i, r.tasks[i].err));
      }
    }
  }

  lemma TwoMore(front: seq<Action>)
    ensures forall x: Action, y: Action {:trigger front + [x, y]} :: front + [x, y] == (front + [x]) + [y]
    ensures forall x: Action, y: Action, z: Action {:trigger front + [x, y, z]} :: front + [x, y, z] == (front + [x, y]) + [z]
  {
  }

  /** The last step of a schedule. */
  lemma {:induction false} LastStep(g: Group, s: System, sched: Schedule)
    requires Possible(g, s, sched) && sched != []
    ensures var before, x := sched[..|sched| - 1], sched[|sched| - 1];
      && Possible(g, s, before) && StepEnabled(g, After(g, s, before), x.0, x.1)
      && After(g, s, sched) == Step(g, After(g, s, before), x.0, x.1)
    decreases |sched|
  {
    var before := sched[..|sched| - 1];
    if |sched| == 1 {
      assert before == [] && sched[1..] == [];
    } else {
      var rest := sched[1..];
      LastStep(g, Step(g, s, sched[0].0, sched[0].1), rest);
      assert before[0] == sched[0] && before[1..] == rest[..|rest| - 1];
    }
  }

  /** Every goroutine of every run is on such a path. */
  lemma {:induction false} TaskPaths(g: Group, calls: seq<seq<string>>, sched: Schedule, k: nat, i: nat)
    requires Possible(g, Init(g, calls), sched) && k < |calls| && i < |calls[k]|
    ensures var s := After(g, Init(g, calls), sched);
      && k < |s.runs| && i < |s.runs[k].tasks|
      && Path(g.limit.Some?, i, s.runs[k].tasks[i], TaskActions(sched, k, i))
    decreases |sched|
  {
    if sched != [] {
      var before, x := sched[..|sched| - 1], sched[|sched| - 1];
      LastStep(g, Init(g, calls), sched);
      TaskPaths(g, calls, before, k, i);
      ReachableInv(g, calls, before);
      var s := After(g, Init(g, calls), before);
      hide Path, After, Init, Possible;
      if x.0 == k {
        PathStep(g, s.tokens, s.runs[k], x.1, i, TaskActions(before, k, i));
      } else {
        assert TaskActions(before, k, i) + [] == TaskActions(before, k, i);
      }
    }
  }

  // ---------------------------------------------------------------- failures

  /** What the body of a task reported, from the actions of its goroutine. */
  function ReportedIn(acts: seq<Action>): Option<Option<Err>> {
    if acts == [] then None
    else if acts[|acts| - 1].BodyReturns? then Some(acts[|acts| - 1].e)
    else ReportedIn(acts[..|acts| - 1])
  }

  function Reported(sched: Schedule, k: nat, i: nat): Option<Option<Err>> { ReportedIn(TaskActions(sched, k, i)) }

  /** The failures that run `k` records, in the order of the locked regions: for each the error that
      the body returned before. */
  function Failures(sched: Schedule, k: nat): seq<(nat, Err)> {
    if sched == [] then []
    else
      var before, x := sched[..|sched| - 1], sched[|sched| - 1];
      Failures(before, k)
      + if x.0 == k && x.1.LockRecord? && Reported(before, k, x.1.i).Some? && Reported(before, k, x.1.i).value.Some?
        then [(x.1.i, Reported(before, k, x.1.i).value.value)] else []
  }

  lemma ReportedOnPath(limited: bool, i: nat, t: TaskPc, acts: seq<Action>)
    requires Path(limited, i, t, acts)
    ensures NeverRan(t) || t.Running? <==> ReportedIn(acts).None?
    ensures !(NeverRan(t) || t.Running?) ==> ReportedIn(acts) == Some(t.err)
  {
    ReportedNothing(limited, i);
    if !NeverRan(t) && !t.Running? {
      ReportedRan(limited, i, t.err);
    }
    hide ReportedIn, Ran, Entered;
  }

  lemma ReportedNothing(limited: bool, i: nat)
    ensures ReportedIn([]) == None && ReportedIn(Entered(limited, i)) == None
    ensures ReportedIn([SeeCancel(i)]) == None && ReportedIn([SeeCancel(i), LockSkip(i)]) == None
  {
    ReportedAfter([], Take(i));
    ReportedAfter([], SeeCancel(i));
    ReportedAfter([SeeCancel(i)], LockSkip(i));
    assert [] + [Take(i)] == [Take(i)] && [] + [SeeCancel(i)] == [SeeCancel(i)];
    assert [SeeCancel(i)] + [LockSkip(i)] == [SeeCancel(i), LockSkip(i)];
  }

  lemma ReportedRan(limited: bool, i: nat, e: Option<Err>)
    ensures ReportedIn(Entered(limited, i) + [BodyReturns(i, e)]) == Some(e)
    ensures var ran := Ran(limited, i, e);
      && ReportedIn(ran) == ReportedIn(ran + [LastCancel(i)]) == ReportedIn(ran + [LastCancel(i), LastFinish(i)]) == Some(e)
      && ReportedIn(ran + [LastCancel(i), GiveBack(i)]) == ReportedIn(ran + [LastCancel(i), LastFinish(i), GiveBack(i)]) == Some(e)
  {
    hide ReportedIn;
    var entered, ran := Entered(limited, i), Ran(limited, i, e);
    ReportedAfter(entered, BodyReturns(i, e));
    ReportedAfter(entered + [BodyReturns(i, e)], LockRecord(i));
    assert ran == entered + [BodyReturns(i, e)] + [LockRecord(i)];
    hide Ran;
    ReportedAfter(ran, LastCancel(i));
    ReportedAfter(ran + [LastCancel(i)], LastFinish(i));
    ReportedAfter(ran + [LastCancel(i)], GiveBack(i));
    ReportedAfter(ran + [LastCancel(i)] + [LastFinish(i)], GiveBack(i));
    assert ran + [LastCancel(i), LastFinish(i)] == ran + [LastCancel(i)] + [LastFinish(i)];
    assert ran + [LastCancel(i), GiveBack(i)] == ran + [LastCancel(i)] + [GiveBack(i)];
    assert ran + [LastCancel(i), LastFinish(i), GiveBack(i)] == ran + [LastCancel(i)] + [LastFinish(i)] + [GiveBack(i)];
  }

  lemma ReportedAfter(acts: seq<Action>, a: Action)
    ensures ReportedIn(acts + [a]) == if a.BodyReturns? then Some(a.e) else ReportedIn(acts)
  {
    assert (acts + [a])[..|acts|] == acts;
  }

  /** The failures of a run are those that its schedule records. */
  lemma {:induction false} LogIsFailures(g: Group, calls: seq<seq<string>>, sched: Schedule, k: nat)
    requires Possible(g, Init(g, calls), sched) && k < |calls|
    ensures k < |After(g, Init(g, calls), sched).runs|
    ensures After(g, Init(g, calls), sched).runs[k].log == Failures(sched, k)
    decreases |sched|
  {
    PhasesInOrder(g, calls, sched, k);
    if sched != [] {
      var before, x := sched[..|sched| - 1], sched[|sched| - 1];
      LastStep(g, Init(g, calls), sched);
      PhasesInOrder(g, calls, before, k);
      LogIsFailures(g, calls, before, k);
      var s := After(g, Init(g, calls), before);
      if x.0 == k && x.1.LockRecord? {
        var i := x.1.i;
        TaskPaths(g, calls, before, k, i);
        ReportedOnPath(g.limit.Some?, i, s.runs[k].tasks[i], TaskActions(before, k, i));
      }
      hide Path, After, Init, Possible, TaskActions, ReportedIn;
      LogStep(g, s, x, k);
    }
  }

  lemma LogStep(g: Group, s: System, x: (nat, Action), k: nat)
    requires StepEnabled(g, s, x.0, x.1) && k < |s.runs|
    ensures var s' := Step(g, s, x.0, x.1);
      k < |s'.runs| && s'.runs[k].log == s.runs[k].log +
        if x.0 == k && x.1.LockRecord? && s.runs[k].tasks[x.1.i].err.Some?
        then [(x.1.i, s.runs[k].tasks[x.1.i].err.value)] else []
  {
  }

  /** The caller has cancelled exactly when the schedule says so. */
  lemma {:induction false} CancelledByCaller(g: Group, calls: seq<seq<string>>, sched: Schedule, k: nat)
    requires Possible(g, Init(g, calls), sched) && k < |calls|
    ensures k < |After(g, Init(g, calls), sched).runs|
    ensures After(g, Init(g, calls), sched).runs[k].ctxDone <==> (k, CtxCancel) in sched
    decreases |sched|
  {
    PhasesInOrder(g, calls, sched, k);
    if sched != [] {
      var before, x := sched[..|sched| - 1], sched[|sched| - 1];
      LastStep(g, Init(g, calls), sched);
      PhasesInOrder(g, calls, before, k);
      CancelledByCaller(g, calls, before, k);
      assert sched == before + [x];
      hide *;
      CancelStep(g, After(g, Init(g, calls), before), x, k);
    }
  }

  lemma CancelStep(g: Group, s: System, x: (nat, Action), k: nat)
    requires StepEnabled(g, s, x.0, x.1) && k < |s.runs|
    ensures k < |Step(g, s, x.0, x.1).runs|
    ensures Step(g, s, x.0, x.1).runs[k].ctxDone <==> s.runs[k].ctxDone || x == (k, CtxCancel)
  {
  }

  // ---------------------------------------------------------------- what a run returns

  /** A goroutine past the countdown was skipped, or its body reported a result that was recorded. */
  lemma DecidedPath(limited: bool, i: nat, t: TaskPc, acts: seq<Action>)
    requires Path(limited, i, t, acts)
    ensures Undecided(t) == 0 <==> LockSkip(i) in acts || LockRecord(i) in acts
    ensures LockSkip(i) in acts <==> t.Skipped?
    ensures LockRecord(i) in acts <==> Undecided(t) == 0 && !t.Skipped?
  {
  }

  lemma EveryTaskIsDecided(g: Group, calls: seq<seq<string>>, sched: Schedule, k: nat, i: nat)
    requires Possible(g, Init(g, calls), sched) && k < |calls| && i < |calls[k]|
    requires k < |After(g, Init(g, calls), sched).runs| && After(g, Init(g, calls), sched).runs[k].main.Returned?
    ensures i < |After(g, Init(g, calls), sched).runs[k].tasks|
    ensures var t, acts := After(g, Init(g, calls), sched).runs[k].tasks[i], TaskActions(sched, k, i);
      && (LockSkip(i) in acts <==> t.Skipped?)
      && (t.Skipped? ==> Reported(sched, k, i) == None)
      && (!t.Skipped? ==> LockRecord(i) in acts && !NeverRan(t) && !t.Running? && Reported(sched, k, i) == Some(t.err))
      && (forall e :: Failed(t, e) <==> Reported(sched, k, i) == Some(Some(e)))
      && (Succeeded(t) <==> Reported(sched, k, i) == Some(None))
  {
    TaskPaths(g, calls, sched, k, i);
    ReturnsAfterEveryTask(g, calls, sched, k);
    var t, acts := After(g, Init(g, calls), sched).runs[k].tasks[i], TaskActions(sched, k, i);
    DecidedPath(g.limit.Some?, i, t, acts);
    ReportedOnPath(g.limit.Some?, i, t, acts);
    hide After, Init, Possible, TaskActions, ReportedIn, Path;
  }

  lemma OutcomeOf(g: Group, r: Run)
    requires RunInv(g, r) && r.main.Returned?
    ensures LogMatches(r.tasks, r.log) && |r.tasks| == |r.names|
    ensures r.main.outcome == if r.main.outcome.Upstream? then Upstream else Result(JoinAll(r.names, r.log))
    ensures !r.ctxDone ==> r.main.outcome.Result?
    ensures !r.ctxDone ==> forall i :: 0 <= i < |r.tasks| && WasSkipped(r.tasks[i]) ==> g.fastFail && r.log != []
  {
  }

  /** What the bodies of a returned run reported, as its state has it. */
  ghost predicate ReportsOf(r: Run, sched: Schedule, k: nat) {
    forall i :: 0 <= i < |r.tasks| ==>
      && (LockSkip(i) in TaskActions(sched, k, i) <==> Reported(sched, k, i) == None)
      && (r.tasks[i].Skipped? <==> Reported(sched, k, i) == None)
      && (forall e :: Failed(r.tasks[i], e) <==> Reported(sched, k, i) == Some(Some(e)))
      && (Succeeded(r.tasks[i]) <==> Reported(sched, k, i) == Some(None))
  }

  lemma ReturnedReports(g: Group, calls: seq<seq<string>>, sched: Schedule, k: nat)
    requires Possible(g, Init(g, calls), sched) && k < |calls|
    requires k < |After(g, Init(g, calls), sched).runs| && After(g, Init(g, calls), sched).runs[k].main.Returned?
    ensures ReportsOf(After(g, Init(g, calls), sched).runs[k], sched, k)
  {
    hide *;
    PhasesInOrder(g, calls, sched, k);
    var r := After(g, Init(g, calls), sched).runs[k];
    forall i | 0 <= i < |r.tasks|
      ensures LockSkip(i) in TaskActions(sched, k, i) <==> Reported(sched, k, i) == None
      ensures r.tasks[i].Skipped? <==> Reported(sched, k, i) == None
      ensures forall e :: Failed(r.tasks[i], e) <==> Reported(sched, k, i) == Some(Some(e))
      ensures Succeeded(r.tasks[i]) <==> Reported(sched, k, i) == Some(None)
    {
      EveryTaskIsDecided(g, calls, sched, k, i);
    }
    ReportsAre(r, sched, k);
  }

  lemma ReportsAre(r: Run, sched: Schedule, k: nat)
    requires forall i :: 0 <= i < |r.tasks| ==> (LockSkip(i) in TaskActions(sched, k, i) <==> Reported(sched, k, i) == None)
    requires forall i :: 0 <= i < |r.tasks| ==> (r.tasks[i].Skipped? <==> Reported(sched, k, i) == None)
    requires forall i, e :: 0 <= i < |r.tasks| ==> (Failed(r.tasks[i], e) <==> Reported(sched, k, i) == Some(Some(e)))
    requires forall i :: 0 <= i < |r.tasks| ==> (Succeeded(r.tasks[i]) <==> Reported(sched, k, i) == Some(None))
    ensures ReportsOf(r, sched, k)
  {
    hide TaskActions, Reported, Failed, Succeeded;
  }

  /** A run that took the upstream branch returns the upstream error. Any other returns the join, in the
      order of the schedule, of the errors that the bodies reported: nil if there are none. Every task
      was run or skipped. */
  lemma RunResult(g: Group, calls: seq<seq<string>>, sched: Schedule, k: nat)
    requires Possible(g, Init(g, calls), sched) && k < |calls| == |After(g, Init(g, calls), sched).runs|
    requires After(g, Init(g, calls), sched).runs[k].main.Returned?
    ensures var failures := Failures(sched, k);
      && (forall j :: 0 <= j < |failures| ==> failures[j].0 < |calls[k]|)
      && (forall i, e :: 0 <= i < |calls[k]| ==> ((i, e) in failures <==> Reported(sched, k, i) == Some(Some(e))))
      && (forall j, l :: 0 <= j < l < |failures| ==> failures[j].0 != failures[l].0)
      && After(g, Init(g, calls), sched).runs[k].main.outcome ==
           if SelectUpstream in MainActions(sched, k) then Upstream else Result(JoinAll(calls[k], failures))
    ensures forall i :: 0 <= i < |calls[k]| ==> (LockSkip(i) in TaskActions(sched, k, i) <==> Reported(sched, k, i) == None)
  {
    hide *;
    ReachableInv(g, calls, sched);
    PhasesInOrder(g, calls, sched, k);
    LogIsFailures(g, calls, sched, k);
    var r := After(g, Init(g, calls), sched).runs[k];
    InvOf(g, After(g, Init(g, calls), sched), k);
    OutcomeOf(g, r);
    TookUpstream(r.main, |calls[k]|);
    ReturnedReports(g, calls, sched, k);
    ReportsMakeTheLog(r, sched, k);
  }

  lemma InvOf(g: Group, s: System, k: nat)
    requires Inv(g, s) && k < |s.runs|
    ensures RunInv(g, s.runs[k])
  {
  }

  /** Unless the caller cancels there is no upstream branch, nil means that every body ran and reported
      nil, and only fast-fail after a failure has skipped a task. */
  lemma ResultWithoutCancel(g: Group, calls: seq<seq<string>>, sched: Schedule, k: nat)
    requires Possible(g, Init(g, calls), sched) && k < |calls| == |After(g, Init(g, calls), sched).runs|
    requires After(g, Init(g, calls), sched).runs[k].main.Returned? && (k, CtxCancel) !in sched
    ensures var outcome := After(g, Init(g, calls), sched).runs[k].main.outcome;
      && outcome.Result?
      && (outcome.err == None <==> forall i :: 0 <= i < |calls[k]| ==> Reported(sched, k, i) == Some(None))
    ensures (exists i :: 0 <= i < |calls[k]| && Reported(sched, k, i) == None) ==> g.fastFail && Failures(sched, k) != []
  {
    hide *;
    ReachableInv(g, calls, sched);
    PhasesInOrder(g, calls, sched, k);
    LogIsFailures(g, calls, sched, k);
    CancelledByCaller(g, calls, sched, k);
    var r := After(g, Init(g, calls), sched).runs[k];
    InvOf(g, After(g, Init(g, calls), sched), k);
    OutcomeOf(g, r);
    NothingJoined(r);
    ReturnedReports(g, calls, sched, k);
    NothingReported(r, sched, k);
    SkippedOnes(r, sched, k);
  }

  lemma NothingJoined(r: Run)
    requires LogMatches(r.tasks, r.log) && |r.tasks| == |r.names|
    ensures JoinAll(r.names, r.log) == None <==> r.log == []
  {
  }

  lemma SkippedOnes(r: Run, sched: Schedule, k: nat)
    requires ReportsOf(r, sched, k)
    ensures forall i :: 0 <= i < |r.tasks| && Reported(sched, k, i) == None ==> WasSkipped(r.tasks[i])
  {
    hide Reported;
  }

  lemma TookUpstream(m: MainPc, n: nat)
    requires m.Returned?
    ensures SelectUpstream in Phases(m, n) <==> m.outcome.Upstream?
  {
    SpawnsOnly(n + 1);
  }

  lemma {:induction false} SpawnsOnly(i: nat)
    ensures SelectUpstream !in Spawns(i)
  {
    if i > 0 {
      SpawnsOnly(i - 1);
    }
  }

  lemma ReportsMakeTheLog(r: Run, sched: Schedule, k: nat)
    requires LogMatches(r.tasks, r.log) && ReportsOf(r, sched, k)
    ensures forall i, e :: 0 <= i < |r.tasks| ==> ((i, e) in r.log <==> Reported(sched, k, i) == Some(Some(e)))
    ensures forall i :: 0 <= i < |r.tasks| ==> (LockSkip(i) in TaskActions(sched, k, i) <==> Reported(sched, k, i) == None)
    ensures forall j :: 0 <= j < |r.log| ==> r.log[j].0 < |r.tasks|
    ensures forall j, l :: 0 <= j < l < |r.log| ==> r.log[j].0 != r.log[l].0
  {
    hide Reported, TaskActions;
    forall i, e | 0 <= i < |r.tasks|
      ensures (i, e) in r.log <==> Failed(r.tasks[i], e)
    {
      if (i, e) in r.log {
        var j :| 0 <= j < |r.log| && r.log[j] == (i, e);
        assert Failed(r.tasks[r.log[j].0], r.log[j].1);
      }
    }
  }

  lemma ReportCases(reported: Option<Option<Err>>)
    ensures reported == None || reported == Some(None) || exists e :: reported == Some(Some(e))
  {
    if reported.Some? && reported.value.Some? {
      assert reported == Some(Some(reported.value.value));
    }
  }

  lemma NothingReported(r: Run, sched: Schedule, k: nat)
    requires LogMatches(r.tasks, r.log) && ReportsOf(r, sched, k)
    requires forall i :: 0 <= i < |r.tasks| && WasSkipped(r.tasks[i]) ==> r.log != []
    ensures r.log == [] <==> forall i :: 0 <= i < |r.tasks| ==> Reported(sched, k, i) == Some(None)
  {
    hide Reported, TaskActions;
    if r.log != [] {
      assert Failed(r.tasks[r.log[0].0], r.log[0].1);
    } else {
      forall i | 0 <= i < |r.tasks|
        ensures Reported(sched, k, i) == Some(None)
      {
        assert !WasSkipped(r.tasks[i]);
        ReportCases(Reported(sched, k, i));
        assert forall e :: Failed(r.tasks[i], e) ==> (i, e) in r.log;
      }
    }
  }

  // ---------------------------------------------------------------- fast-fail

  lemma CountedOne(r: Run, i: nat)
    requires CountInv(r) && i < |r.tasks| && Undecided(r.tasks[i]) == 1
    ensures 0 < r.sh.count
  {
    TotalNonNegative(Undecided, r.tasks);
  }

  lemma CancelOf(g: Group, r: Run)
    requires RunInv(g, r)
    ensures g.fastFail && r.log != [] ==> r.sh.cancelled
    ensures !r.ctxDone && 0 < r.sh.count ==> (r.sh.cancelled <==> g.fastFail && r.log != [])
    ensures r.main.CleaningUp? || r.main.Waiting? || r.main.Returned? ==> r.sh.cancelled
    ensures CountInv(r)
  {
  }

  /** Fast-fail: from the first failure that the schedule records the run is cancelled, so that every task
      still waiting for a token can be skipped and the caller can leave its select. */
  lemma FastFailCancels(g: Group, calls: seq<seq<string>>, sched: Schedule, k: nat)
    requires Possible(g, Init(g, calls), sched) && k < |calls| == |After(g, Init(g, calls), sched).runs|
    requires g.fastFail && Failures(sched, k) != []
    ensures var s := After(g, Init(g, calls), sched);
      && s.runs[k].sh.cancelled
      && (forall i :: 0 <= i < |s.runs[k].tasks| && s.runs[k].tasks[i].AtSelect? ==> StepEnabled(g, s, k, SeeCancel(i)))
      && (s.runs[k].main.Selecting? ==> StepEnabled(g, s, k, SelectCancelled))
  {
    hide *;
    ReachableInv(g, calls, sched);
    LogIsFailures(g, calls, sched, k);
    InvOf(g, After(g, Init(g, calls), sched), k);
    CancelOf(g, After(g, Init(g, calls), sched).runs[k]);
    CancelledMoves(g, After(g, Init(g, calls), sched), k);
  }

  lemma CancelledMoves(g: Group, s: System, k: nat)
    requires k < |s.runs| && s.runs[k].sh.cancelled
    ensures forall i :: 0 <= i < |s.runs[k].tasks| && s.runs[k].tasks[i].AtSelect? ==> StepEnabled(g, s, k, SeeCancel(i))
    ensures s.runs[k].main.Selecting? ==> StepEnabled(g, s, k, SelectCancelled)
  {
  }

  /** While a task is still to be decided, and the caller has not cancelled, a run is cancelled if and only
      if fast-fail is on and the schedule has recorded a failure. So nobody is skipped, and the caller does
      not leave its select, for any other reason. */
  lemma CancelledExactlyWhen(g: Group, calls: seq<seq<string>>, sched: Schedule, k: nat, i: nat)
    requires Possible(g, Init(g, calls), sched) && k < |calls| == |After(g, Init(g, calls), sched).runs| && i < |calls[k]|
    requires (k, CtxCancel) !in sched && LockSkip(i) !in TaskActions(sched, k, i) && LockRecord(i) !in TaskActions(sched, k, i)
    ensures var r := After(g, Init(g, calls), sched).runs[k];
      && (r.sh.cancelled <==> g.fastFail && Failures(sched, k) != [])
      && (r.main.CleaningUp? || r.main.Waiting? || r.main.Returned? ==> r.sh.cancelled)
  {
    var s := After(g, Init(g, calls), sched);
    ReachableInv(g, calls, sched);
    LogIsFailures(g, calls, sched, k);
    CancelledByCaller(g, calls, sched, k);
    TaskPaths(g, calls, sched, k, i);
    DecidedPath(g.limit.Some?, i, s.runs[k].tasks[i], TaskActions(sched, k, i));
    hide After, Init, Possible, Failures, TaskActions, RunInv, Path;
    InvOf(g, s, k);
    CancelOf(g, s.runs[k]);
    CountedOne(s.runs[k], i);
  }
}
