/**
 The duplicate-suppression group seen through its schedule alone: what fn did and who called, against
 what every caller gets. Nothing here is said in terms of how an action changes the state.
 */
module SingleflightTraces {
  import opened Prelude
  import opened Singleflight
  import opened SingleflightTheorems

  /** The last step of a schedule. */
  lemma {:induction false} LastStep(s: State, sched: Schedule)
    requires Possible(s, sched) && sched != []
    ensures var before, a := sched[..|sched| - 1], sched[|sched| - 1];
      && Possible(s, before) && Enabled(After(s, before), a) && After(s, sched) == Apply(After(s, before), a)
    decreases |sched|
  {
    var before := sched[..|sched| - 1];
    if |sched| == 1 {
      assert before == [] && sched[1..] == [];
    } else {
      LastStep(Apply(s, sched[0]), sched[1..]);
      assert before[0] == sched[0] && before[1..] == sched[1..][..|sched[1..]| - 1];
    }
  }

  // ---------------------------------------------------------------- what fn did

  /** How fn of call `c` ended in a schedule. */
  function ExitIn(sched: Schedule, c: nat): Option<Exit> {
    if sched == [] then None
    else
      var a := sched[|sched| - 1];
      if a.FnExits? && a.c == c then Some(a.exit) else ExitIn(sched[..|sched| - 1], c)
  }

  /** What a call has of its fn: nothing before it ended, then for good what it returned, the recovered
      panic, or the mark of a Goexit. */
  predicate HasExit(call: Call, exit: Option<Exit>) {
    match exit
    case None => call.phase.Executing? && call.val == None && call.err == None
    case Some(Normal(v, e)) => !call.phase.Executing? && call.val == Some(v) && call.err == e
    case Some(Panics(x)) => !call.phase.Executing? && call.val == None && call.err == Some(PanicErr(x))
    case Some(Goexits) => !call.phase.Executing? && call.val == None && call.err == Some(GoexitErr)
  }

  lemma CallStep(s: State, a: Action, c: nat, exit: Option<Exit>, completed: bool)
    requires MapInv(s) && Enabled(s, a) && c < |Apply(s, a).calls|
    requires c < |s.calls| ==> HasExit(s.calls[c], exit) && (s.calls[c].phase.Completed? <==> completed)
    requires c >= |s.calls| ==> exit == None && !completed
    ensures HasExit(Apply(s, a).calls[c], if a.FnExits? && a.c == c then Some(a.exit) else exit)
    ensures Apply(s, a).calls[c].phase.Completed? <==> completed || a == Complete(c)
  {
  }

  lemma NotYet(s: State, a: Action)
    requires Enabled(s, a)
    ensures |s.calls| <= |Apply(s, a).calls|
    ensures a.FnExits? || a.Complete? ==> a.c < |s.calls|
  {
  }

  /** Nothing is said of a call before it begins. */
  lemma {:induction false} NothingOfLaterCalls(sched: Schedule, c: nat)
    requires Possible(Init, sched) && |After(Init, sched).calls| <= c
    ensures ExitIn(sched, c) == None && Complete(c) !in sched
    decreases |sched|
  {
    if sched != [] {
      var before, a := sched[..|sched| - 1], sched[|sched| - 1];
      LastStep(Init, sched);
      NotYet(After(Init, before), a);
      NothingOfLaterCalls(before, c);
      assert sched == before + [a];
    }
  }

  /** From the step in which fn ends, its call has exactly what it ended with, whatever happens later. */
  lemma {:induction false} ExitIsKept(sched: Schedule, c: nat)
    requires Possible(Init, sched) && c < |After(Init, sched).calls|
    ensures HasExit(After(Init, sched).calls[c], ExitIn(sched, c))
    ensures After(Init, sched).calls[c].phase.Completed? <==> Complete(c) in sched
    decreases |sched|
  {
    hide *;
    AfterNothing();
    if sched != [] {
      var before, a := sched[..|sched| - 1], sched[|sched| - 1];
      LastStep(Init, sched);
      var s := After(Init, before);
      InitForgetsNothing();
      ScheduleInv(Init, before);
      InvMaps(s);
      assert sched == before + [a];
      if c < |s.calls| {
        ExitIsKept(before, c);
      } else {
        NothingOfLaterCalls(before, c);
      }
      CallStep(s, a, c, ExitIn(before, c), Complete(c) in before);
      ExitOfMore(sched, c);
    }
  }

  lemma AfterNothing()
    ensures After(Init, []) == Init && Init.calls == [] && Init.callers == []
  {
  }

  lemma ExitOfMore(sched: Schedule, c: nat)
    requires sched != []
    ensures ExitIn(sched, c) ==
      var a := sched[|sched| - 1];
      if a.FnExits? && a.c == c then Some(a.exit) else ExitIn(sched[..|sched| - 1], c)
  {
  }

  // ---------------------------------------------------------------- who called

  /** The calls of Do and DoChan, in order. */
  function Entries(sched: Schedule): seq<Action> {
    if sched == [] then []
    else
      var a := sched[|sched| - 1];
      Entries(sched[..|sched| - 1]) + if a.Do? || a.DoChan? then [a] else []
  }

  function KeyOf(a: Action): Key
    requires a.Do? || a.DoChan?
  {
    a.key
  }

  /** The callers are those of the schedule: each is attached to a call for the key it named, DoChan
      callers wait on a channel, and of the others exactly the first of a call runs fn. */
  ghost predicate CallersAre(s: State, entries: seq<Action>) {
    && |s.callers| == |entries|
    && (forall p :: 0 <= p < |entries| ==>
         && (entries[p].Do? || entries[p].DoChan?)
         && s.callers[p].call < |s.calls| && s.calls[s.callers[p].call].key == KeyOf(entries[p])
         && (s.callers[p].role.Subscriber? <==> entries[p].DoChan?)
         && (s.callers[p].role.Leader? <==> entries[p].Do? && !Earlier(s, p)))
    && (forall c :: 0 <= c < |s.calls| ==> HasCaller(s, c))
  }

  ghost predicate HasCaller(s: State, c: nat) { exists p :: 0 <= p < |s.callers| && s.callers[p].call == c }

  /** Someone called before caller `p` and got the same call. */
  ghost predicate Earlier(s: State, p: nat)
    requires p < |s.callers|
  {
    exists q :: 0 <= q < p && s.callers[q].call == s.callers[p].call
  }

  lemma EarlierCallers(s: State, a: Action, p: nat)
    requires Enabled(s, a) && p < |s.callers|
    ensures p < |Apply(s, a).callers| && Apply(s, a).callers[p].call == s.callers[p].call && Apply(s, a).callers[p].role == s.callers[p].role
    ensures Earlier(Apply(s, a), p) <==> Earlier(s, p)
  {
    var s' := Apply(s, a);
    assert forall q :: 0 <= q < |s.callers| ==> s'.callers[q].call == s.callers[q].call;
  }

  /** The one who enters. */
  lemma NewCaller(s: State, a: Action, entries: seq<Action>)
    requires MapInv(s) && Enabled(s, a) && (a.Do? || a.DoChan?) && CallersAre(s, entries)
    ensures var s' := Apply(s, a);
      var p := |s.callers|;
      && |s'.callers| == p + 1 && s'.callers[p].call < |s'.calls|
      && var call := s'.calls[s'.callers[p].call];
         && call.key == a.key && !call.phase.Completed? && !call.forgotten
         && (s'.callers[p].role.Subscriber? <==> a.DoChan?)
         && (s'.callers[p].role.Leader? <==> a.Do? && !Earlier(s', p))
         && (Earlier(s', p) <==> a.key in s.m)
  {
    var s', p := Apply(s, a), |s.callers|;
    if a.key in s.m {
      assert HasCaller(s, s.m[a.key]);
      var q :| 0 <= q < |s.callers| && s.callers[q].call == s.m[a.key];
      assert s'.callers[q].call == s'.callers[p].call;
    } else {
      assert forall q :: 0 <= q < p ==> s'.callers[q].call == s.callers[q].call < |s.calls|;
    }
  }

  lemma CallsKeepKeys(s: State, a: Action, c: nat)
    requires Enabled(s, a) && c < |s.calls|
    ensures c < |Apply(s, a).calls| && Apply(s, a).calls[c].key == s.calls[c].key
  {
  }

  lemma EnterStep(s: State, a: Action, entries: seq<Action>)
    requires MapInv(s) && Enabled(s, a) && CallersAre(s, entries)
    ensures CallersAre(Apply(s, a), entries + if a.Do? || a.DoChan? then [a] else [])
  {
    var s', entries' := Apply(s, a), entries + if a.Do? || a.DoChan? then [a] else [];
    forall p | 0 <= p < |s.callers|
      ensures p < |s'.callers| && s'.callers[p].call == s.callers[p].call && s'.callers[p].role == s.callers[p].role
      ensures s'.callers[p].call < |s'.calls| && s'.calls[s'.callers[p].call].key == KeyOf(entries'[p])
      ensures s'.callers[p].role.Leader? <==> entries'[p].Do? && !Earlier(s', p)
    {
      EarlierCallers(s, a, p);
      CallsKeepKeys(s, a, s.callers[p].call);
    }
    CallersAndCalls(s, a);
    if a.Do? || a.DoChan? {
      NewCaller(s, a, entries);
    }
    hide Apply, Enabled, Earlier;
    forall c | 0 <= c < |s'.calls|
      ensures HasCaller(s', c)
    {
      if c < |s.calls| {
        assert HasCaller(s, c);
        var p :| 0 <= p < |s.callers| && s.callers[p].call == c;
        assert s'.callers[p].call == c;
      } else {
        assert s'.callers[|s.callers|].call == c;
      }
    }
  }

  lemma CallersAndCalls(s: State, a: Action)
    requires Enabled(s, a)
    ensures var s' := Apply(s, a);
      && |s'.callers| == |s.callers| + (if a.Do? || a.DoChan? then 1 else 0)
      && |s.calls| <= |s'.calls| <= |s.calls| + 1
      && (|s.calls| < |s'.calls| ==> (a.Do? || a.DoChan?) && s'.callers[|s.callers|].call == |s.calls|)
  {
  }

  lemma {:induction false} CallersOfSchedule(sched: Schedule)
    requires Possible(Init, sched)
    ensures CallersAre(After(Init, sched), Entries(sched))
    decreases |sched|
  {
    if sched == [] {
      assert After(Init, []) == Init;
    } else {
      var before, a := sched[..|sched| - 1], sched[|sched| - 1];
      hide CallersAre, Inv, MapInv, Enabled, Apply, After, Possible;
      LastStep(Init, sched);
      CallersOfSchedule(before);
      InitForgetsNothing();
      ScheduleInv(Init, before);
      InvMaps(After(Init, before));
      EnterStep(After(Init, before), a, Entries(before));
    }
  }

  /** Whoever calls next gets a call for its key that is unfinished and not forgotten: a new one exactly if
      there is none. */
  lemma WhoeverCallsNext(sched: Schedule, a: Action)
    requires Possible(Init, sched) && Enabled(After(Init, sched), a) && (a.Do? || a.DoChan?)
    ensures var s, s' := After(Init, sched), Apply(After(Init, sched), a);
      var p := |s.callers|;
      && p < |s'.callers| && s'.callers[p].call < |s'.calls|
      && var call := s'.calls[s'.callers[p].call];
         && call.key == a.key && Wanted(call)
         && (Earlier(s', p) <==> exists c :: 0 <= c < |s.calls| && s.calls[c].key == a.key && Wanted(s.calls[c]))
  {
    var s := After(Init, sched);
    InitForgetsNothing();
    ScheduleInv(Init, sched);
    InvMaps(s);
    CallersOfSchedule(sched);
    NewCaller(s, a, Entries(sched));
    hide Apply, After, Possible, Enabled, CallersAre, Earlier;
    if a.key in s.m {
      assert s.calls[s.m[a.key]].key == a.key && Wanted(s.calls[s.m[a.key]]);
    }
  }

  /** Nobody has to wait to call, or to forget a key. */
  lemma AnyoneCanCall(sched: Schedule, key: Key)
    requires Possible(Init, sched) && !After(Init, sched).hung
    ensures Enabled(After(Init, sched), Do(key)) && Enabled(After(Init, sched), DoChan(key)) && Enabled(After(Init, sched), Forget(key))
  {
    hide *;
    InitForgetsNothing();
    ScheduleInv(Init, sched);
    InvMaps(After(Init, sched));
    CanCall(After(Init, sched), key);
  }

  lemma CanCall(s: State, key: Key)
    requires MapInv(s) && !s.hung
    ensures Enabled(s, Do(key)) && Enabled(s, DoChan(key)) && Enabled(s, Forget(key))
  {
  }

  // ---------------------------------------------------------------- when the process is about to crash

  /** Some DoChan caller waits on call `c`. */
  ghost predicate HasSubscriber(s: State, c: nat) {
    exists p :: 0 <= p < |s.callers| && s.callers[p].call == c && s.callers[p].role.Subscriber?
  }

  /** Channels are those of subscribers, and a group that hangs has completed a panicked call with one. */
  ghost predicate HangsForAReason(s: State) {
    && (forall c :: 0 <= c < |s.calls| && s.calls[c].chans != [] ==> HasSubscriber(s, c))
    && (s.hung ==> exists c :: 0 <= c < |s.calls| && Crashes(s.calls[c]))
  }

  lemma KeepsSubscribers(s: State, a: Action, c: nat)
    requires Enabled(s, a) && c < |Apply(s, a).calls|
    requires c < |s.calls| && s.calls[c].chans != [] ==> HasSubscriber(s, c)
    ensures Apply(s, a).calls[c].chans != [] ==> HasSubscriber(Apply(s, a), c)
  {
    var s' := Apply(s, a);
    if c < |s.calls| && s.calls[c].chans != [] {
      var p :| 0 <= p < |s.callers| && s.callers[p].call == c && s.callers[p].role.Subscriber?;
      EarlierCallers(s, a, p);
      assert s'.callers[p].call == c && s'.callers[p].role.Subscriber?;
    } else if s'.calls[c].chans != [] {
      assert s'.callers[|s.callers|].call == c && s'.callers[|s.callers|].role.Subscriber?;
    }
  }

  lemma HangStep(s: State, a: Action)
    requires Enabled(s, a) && HangsForAReason(s)
    ensures HangsForAReason(Apply(s, a))
  {
    var s' := Apply(s, a);
    forall c | 0 <= c < |s'.calls| && s'.calls[c].chans != []
      ensures HasSubscriber(s', c)
    {
      KeepsSubscribers(s, a, c);
    }
    if s'.hung {
      HungBy(s, a);
    }
  }

  lemma HungBy(s: State, a: Action)
    requires Enabled(s, a) && Apply(s, a).hung
    ensures a.Complete? && a.c < |Apply(s, a).calls| && Crashes(Apply(s, a).calls[a.c])
  {
  }

  lemma {:induction false} HangReasons(sched: Schedule)
    requires Possible(Init, sched)
    ensures HangsForAReason(After(Init, sched))
    decreases |sched|
  {
    if sched == [] {
      assert After(Init, []) == Init;
    } else {
      LastStep(Init, sched);
      HangReasons(sched[..|sched| - 1]);
      hide HangsForAReason, After, Apply, Enabled, Possible;
      HangStep(After(Init, sched[..|sched| - 1]), sched[|sched| - 1]);
    }
  }

  /** A panic, or a panic that fn got from another call and returned as its error. */
  predicate Panicking(exit: Exit) {
    exit.Panics? || (exit.Normal? && exit.err.Some? && exit.err.value.PanicErr?)
  }

  /** The group hangs, to crash the process, exactly when a call whose fn panicked has been completed while a
      DoChan caller was waiting on it. */
  ghost predicate CrashIn(sched: Schedule, s: State, c: nat) {
    Complete(c) in sched && HasSubscriber(s, c) && ExitIn(sched, c).Some? && Panicking(ExitIn(sched, c).value)
  }

  lemma HungExactlyWhen(sched: Schedule)
    requires Possible(Init, sched)
    ensures After(Init, sched).hung <==>
      exists c :: 0 <= c < |After(Init, sched).calls| && CrashIn(sched, After(Init, sched), c)
  {
    var s := After(Init, sched);
    HangReasons(sched);
    InitForgetsNothing();
    ScheduleInv(Init, sched);
    forall c | 0 <= c < |s.calls|
      ensures Crashes(s.calls[c]) <==> CrashIn(sched, s, c)
    {
      ExitIsKept(sched, c);
      CrashesAre(sched, s, c);
    }
    hide After, Possible, CrashIn;
    HungOrNot(s);
  }

  lemma CrashesAre(sched: Schedule, s: State, c: nat)
    requires Inv(s) && HangsForAReason(s) && c < |s.calls|
    requires HasExit(s.calls[c], ExitIn(sched, c)) && (s.calls[c].phase.Completed? <==> Complete(c) in sched)
    ensures Crashes(s.calls[c]) <==> CrashIn(sched, s, c)
  {
    if HasSubscriber(s, c) {
      var p :| 0 <= p < |s.callers| && s.callers[p].call == c && s.callers[p].role.Subscriber?;
      assert s.callers[p].role.ch in s.calls[c].chans;
    }
  }

  lemma HungOrNot(s: State)
    requires Inv(s) && HangsForAReason(s)
    ensures s.hung <==> exists c :: 0 <= c < |s.calls| && Crashes(s.calls[c])
  {
  }

  // ---------------------------------------------------------------- what every caller gets

  /** How a Do caller leaves, from how fn ended. A panic that another call recovered and fn returned as its
      error is raised again. */
  predicate Leaves(ret: Return, exit: Exit, shared: bool) {
    match exit
    case Normal(v, None) => ret == Returns(Some(v), None, shared)
    case Normal(v, Some(e)) => if e.PanicErr? then ret == Panicked(e.value) else ret == Returns(Some(v), Some(e), shared)
    case Panics(x) => ret == Panicked(x)
    case Goexits => ret == Unwound
  }

  /** What is on the channel of a DoChan caller. */
  function Sent(exit: Option<Exit>, completed: bool, shared: bool): seq<Result> {
    if !completed || exit.None? then []
    else
      match exit.value
      case Normal(v, e) => if e.Some? && e.value.PanicErr? then [] else [Result(Some(v), e, shared)]
      case Panics(_) => []
      case Goexits => []
  }

  lemma {:induction false} ReturnedOnes(sched: Schedule, p: nat)
    requires Possible(Init, sched) && p < |After(Init, sched).callers|
    ensures After(Init, sched).callers[p].ret.Some? <==> Return(p) in sched
    decreases |sched|
  {
    hide *;
    AfterNothing();
    if sched != [] {
      var before, a := sched[..|sched| - 1], sched[|sched| - 1];
      LastStep(Init, sched);
      assert sched == before + [a];
      if p < |After(Init, before).callers| {
        ReturnedOnes(before, p);
      } else {
        NobodyReturnsEarly(before, p);
      }
      ReturnStep(After(Init, before), a, p);
    }
  }

  lemma ReturnStep(s: State, a: Action, p: nat)
    requires Enabled(s, a) && p < |Apply(s, a).callers|
    ensures Apply(s, a).callers[p].ret.Some? <==> (p < |s.callers| && s.callers[p].ret.Some?) || a == Return(p)
    ensures |s.callers| <= |Apply(s, a).callers| && (a.Return? ==> a.p < |s.callers|)
  {
  }

  lemma {:induction false} NobodyReturnsEarly(sched: Schedule, p: nat)
    requires Possible(Init, sched) && |After(Init, sched).callers| <= p
    ensures Return(p) !in sched
    decreases |sched|
  {
    if sched != [] {
      var before, a := sched[..|sched| - 1], sched[|sched| - 1];
      LastStep(Init, sched);
      NoFewerCallers(After(Init, before), a);
      NobodyReturnsEarly(before, p);
      assert sched == before + [a];
    }
  }

  lemma NoFewerCallers(s: State, a: Action)
    requires Enabled(s, a)
    ensures |s.callers| <= |Apply(s, a).callers| && (a.Return? ==> a.p < |s.callers|)
  {
  }

  /** What the invariants say of one caller, in terms of how fn ended. */
  lemma CallerGets(s: State, p: nat, exit: Option<Exit>, completed: bool)
    requires Inv(s) && p < |s.callers| && s.callers[p].call < |s.calls|
    requires HasExit(s.calls[s.callers[p].call], exit)
    requires s.calls[s.callers[p].call].phase.Completed? <==> completed
    ensures var shared := Attached(s.callers, s.callers[p].call) > 1;
      && (s.callers[p].ret.Some? ==> completed && exit.Some? && Leaves(s.callers[p].ret.value, exit.value, shared))
      && (s.callers[p].role.Subscriber? ==>
           s.callers[p].role.ch < |s.sent| && s.sent[s.callers[p].role.ch] == Sent(exit, completed, shared))
  {
    var c := s.callers[p].call;
    var call := s.calls[c];
    assert Sane(call) && Attached(s.callers, c) == call.dups + 1;
    assert ChansOk(s.sent, s.owner, c, call);
    if s.callers[p].role.Subscriber? {
      var i :| 0 <= i < |call.chans| && call.chans[i] == s.callers[p].role.ch;
    }
  }

  /** Over every schedule: a Do caller that returned leaves as fn ended, with the value and the error that fn
      returned; a DoChan caller's channel has been sent them once, when its call was completed, and nothing
      else. All share one flag, true exactly when more than one caller got the call. */
  lemma Delivery(sched: Schedule, p: nat)
    requires Possible(Init, sched) && p < |Entries(sched)|
    ensures var s, entries := After(Init, sched), Entries(sched);
      && CallersAre(s, entries)
      && var c := s.callers[p].call;
         var exit, shared := ExitIn(sched, c), Attached(s.callers, c) > 1;
         && (Return(p) in sched <==> s.callers[p].ret.Some?)
         && (Return(p) in sched ==> exit.Some? && Complete(c) in sched && Leaves(s.callers[p].ret.value, exit.value, shared))
         && (entries[p].DoChan? ==>
              s.callers[p].role.Subscriber? && s.callers[p].role.ch < |s.sent|
              && s.sent[s.callers[p].role.ch] == Sent(exit, Complete(c) in sched, shared))
  {
    var s := After(Init, sched);
    CallersOfSchedule(sched);
    InitForgetsNothing();
    ScheduleInv(Init, sched);
    var c := s.callers[p].call;
    ExitIsKept(sched, c);
    ReturnedOnes(sched, p);
    hide After, Possible, Inv, HasExit, Leaves, Sent, Attached, ExitIn, Entries, Earlier;
    CallerGets(s, p, ExitIn(sched, c), Complete(c) in sched);
  }
}
