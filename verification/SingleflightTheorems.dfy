/** What the duplicate-suppression group promises over every schedule of callers. */
module SingleflightTheorems {
  import opened Prelude
  import opened Sums
  import opened Singleflight

  /** Some schedule leads from the empty group to `s`. */
  ghost predicate Reachable(s: State) {
    exists sched :: Possible(Init, sched) && After(Init, sched) == s
  }

  lemma ReachableInv(s: State)
    requires Reachable(s)
    ensures Inv(s)
  {
    var sched :| Possible(Init, sched) && After(Init, sched) == s;
    ScheduleInv(Init, sched);
  }

  // ---------------------------------------------------------------- delivery

  /** Every recipient of a completed call gets its value and error with one shared flag, which is
      true exactly when more than one caller attached; a subscriber's channel has had that one
      result and nothing else. */
  lemma OneResult(s: State, c: nat)
    requires Reachable(s) && c < |s.calls|
    requires s.calls[c].phase.Completed? && Deliverable(s.calls[c].err)
    ensures var call := s.calls[c];
      var shared := Attached(s.callers, c) > 1;
      && (forall p :: 0 <= p < |s.callers| && s.callers[p].call == c && s.callers[p].ret.Some? ==>
           s.callers[p].ret.value == Returns(call.val, call.err, shared))
      && (forall p :: 0 <= p < |s.callers| && s.callers[p].call == c && s.callers[p].role.Subscriber? ==>
           s.callers[p].role.ch < |s.sent| && s.sent[s.callers[p].role.ch] == [Result(call.val, call.err, shared)])
  {
    ReachableInv(s);
    assert ChansOk(s.sent, s.owner, c, s.calls[c]);
    forall p | 0 <= p < |s.callers| && s.callers[p].call == c && s.callers[p].role.Subscriber?
      ensures s.callers[p].role.ch < |s.sent| && s.sent[s.callers[p].role.ch] == Mail(s.calls[c])
    {
      var i :| 0 <= i < |s.calls[c].chans| && s.calls[c].chans[i] == s.callers[p].role.ch;
    }
  }

  /** The deferred locked region never waits for a receiver: every channel it sends on has room. */
  lemma CompletionNeverBlocks(s: State, c: nat)
    requires Reachable(s) && c < |s.calls|
    requires s.calls[c].phase.Exited? && !s.hung
    ensures Enabled(s, Complete(c))
  {
    ReachableInv(s);
    assert ChansOk(s.sent, s.owner, c, s.calls[c]);
  }

  lemma StepFreezes(s: State, a: Action, c: nat)
    requires Inv(s) && Enabled(s, a) && c < |s.calls| && s.calls[c].phase.Completed?
    ensures c < |Apply(s, a).calls| && Apply(s, a).calls[c] == s.calls[c]
    ensures Attached(Apply(s, a).callers, c) == Attached(s.callers, c)
  {
    hide *;
    StepKeepsCompleted(s, a, c);
    StepInv(s, a);
    InvAttached(s, c);
    InvAttached(Apply(s, a), c);
  }

  lemma StepKeepsCompleted(s: State, a: Action, c: nat)
    requires Inv(s) && Enabled(s, a) && c < |s.calls| && s.calls[c].phase.Completed?
    ensures c < |Apply(s, a).calls| && Apply(s, a).calls[c] == s.calls[c]
  {
    hide CallerInv, ChanInv, ErrInv;
  }

  lemma InvAttached(s: State, c: nat)
    requires Inv(s) && c < |s.calls|
    ensures Attached(s.callers, c) == s.calls[c].dups + 1
  {
  }

  /** Once completed, a call's value, error, duplicate count and channels never change again, so
      the leader may read them without the lock. */
  lemma {:induction false} CompletedIsFrozen(s: State, sched: Schedule, c: nat)
    requires Inv(s) && Possible(s, sched) && c < |s.calls| && s.calls[c].phase.Completed?
    ensures c < |After(s, sched).calls| && After(s, sched).calls[c] == s.calls[c]
    ensures Attached(After(s, sched).callers, c) == Attached(s.callers, c)
    decreases |sched|
  {
    if sched != [] {
      StepInv(s, sched[0]);
      StepFreezes(s, sched[0], c);
      CompletedIsFrozen(Apply(s, sched[0]), sched[1..], c);
    }
  }

  /** A fn that returned normally (its value is set) reaches its channels exactly when the error
      it returned is not itself a recovered panic of another call: doCall looks at the error's
      type, not at how fn ended. */
  lemma NormalReturnDeliversUnless(s: State, c: nat, i: nat)
    requires Reachable(s) && c < |s.calls|
    requires s.calls[c].phase.Completed? && s.calls[c].val.Some?
    requires i < |s.calls[c].chans|
    ensures var call := s.calls[c];
      && call.chans[i] < |s.sent|
      && (s.sent[call.chans[i]] == [ResultOf(call)] <==> !(call.err.Some? && call.err.value.PanicErr?))
      && (call.err.Some? && call.err.value.PanicErr? ==> s.sent[call.chans[i]] == [] && s.hung)
  {
    ReachableInv(s);
    assert ChansOk(s.sent, s.owner, c, s.calls[c]);
    assert Sane(s.calls[c]) && (Crashes(s.calls[c]) ==> s.hung);
  }

  /** The failing case: fn returns a panic it recovered from a nested `Do`, and the subscriber
      gets nothing. */
  lemma NestedPanicIsNotDelivered(key: Key, v: Value)
    ensures var sched := [DoChan(key), FnExits(0, Normal(v, Some(PanicErr(7)))), Complete(0)];
      Possible(Init, sched) && After(Init, sched).hung && After(Init, sched).sent == [[]]
  {
    var s1 := Apply(Init, DoChan(key));
    var s2 := Apply(s1, FnExits(0, Normal(v, Some(PanicErr(7)))));
    var s3 := Apply(s2, Complete(0));
    assert Possible(s3, []);
    assert Possible(s2, [Complete(0)]);
    var rest := [FnExits(0, Normal(v, Some(PanicErr(7)))), Complete(0)];
    assert rest[1..] == [Complete(0)];
    assert Possible(s1, rest);
    var sched := [DoChan(key)] + rest;
    assert sched[1..] == rest;
    assert sched == [DoChan(key), FnExits(0, Normal(v, Some(PanicErr(7)))), Complete(0)];
    assert After(Init, sched) == After(s1, rest) == After(s2, [Complete(0)]) == After(s3, []);
  }

  // ---------------------------------------------------------------- exclusion

  /** Unfinished and not forgotten: a new caller of its key would join it. */
  predicate Wanted(c: Call) { !c.phase.Completed? && !c.forgotten }

  /** In every reachable state a key maps to an unfinished call of its own, and of the unfinished
      calls of a key at most one has not been forgotten: the mapped one. */
  lemma Exclusion(s: State)
    requires Reachable(s)
    ensures && (forall k :: k in s.m ==>
           s.m[k] < |s.calls| && s.calls[s.m[k]].key == k && !s.calls[s.m[k]].phase.Completed?)
      && (forall c, d ::
           (0 <= c < |s.calls| && 0 <= d < |s.calls| && s.calls[c].key == s.calls[d].key
            && Wanted(s.calls[c]) && Wanted(s.calls[d])) ==> c == d)
  {
    ReachableInv(s);
  }

  ghost predicate NothingForgotten(s: State) {
    forall c :: 0 <= c < |s.calls| ==> !s.calls[c].forgotten
  }

  lemma StepForgetsNothing(s: State, a: Action)
    requires Inv(s) && Enabled(s, a) && NothingForgotten(s) && !a.Forget?
    ensures NothingForgotten(Apply(s, a))
  {
    hide CallerInv, ChanInv, ErrInv;
  }

  lemma {:induction false} WithoutForget(s: State, sched: Schedule)
    requires Inv(s) && Possible(s, sched) && NothingForgotten(s)
    requires forall i :: 0 <= i < |sched| ==> !sched[i].Forget?
    ensures NothingForgotten(After(s, sched))
    decreases |sched|
  {
    if sched != [] {
      StepInv(s, sched[0]);
      StepForgetsNothing(s, sched[0]);
      hide Inv, NothingForgotten, Apply, Enabled;
      WithoutForget(Apply(s, sched[0]), sched[1..]);
    }
  }

  /** Without `Forget`, executions of fn for one key never overlap. */
  lemma ExecutionsNeverOverlap(sched: Schedule, s: State, c: nat, d: nat)
    requires Possible(Init, sched) && After(Init, sched) == s
    requires forall i :: 0 <= i < |sched| ==> !sched[i].Forget?
    requires c < |s.calls| && d < |s.calls| && s.calls[c].key == s.calls[d].key
    requires s.calls[c].phase.Executing? && s.calls[d].phase.Executing?
    ensures c == d
  {
    hide *;
    InitForgetsNothing();
    ScheduleInv(Init, sched);
    WithoutForget(Init, sched);
    InvMaps(s);
    OneExecution(s, c, d);
  }

  lemma InitForgetsNothing()
    ensures Inv(Init) && NothingForgotten(Init)
  {
  }

  lemma InvMaps(s: State)
    requires Inv(s)
    ensures MapInv(s)
  {
  }

  lemma OneExecution(s: State, c: nat, d: nat)
    requires MapInv(s) && NothingForgotten(s) && c < |s.calls| && d < |s.calls| && s.calls[c].key == s.calls[d].key
    requires s.calls[c].phase.Executing? && s.calls[d].phase.Executing?
    ensures c == d
  {
    assert s.m[s.calls[c].key] == c && s.m[s.calls[d].key] == d;
  }

  /** A forgotten call that completes leaves the newer call of its key in place. */
  lemma ForgottenKeepsNewer(s: State, c: nat)
    requires Reachable(s) && Enabled(s, Complete(c))
    requires s.calls[c].forgotten
    ensures Apply(s, Complete(c)).m == s.m
  {
    ReachableInv(s);
  }

  // ---------------------------------------------------------------- freshness after Forget

  /** From `s` on, key `k` belongs to calls numbered `n` or later, and so do its callers from `q` on. */
  ghost predicate Fresh(s: State, k: Key, n: nat, q: nat) {
    && n <= |s.calls| && q <= |s.callers|
    && (k in s.m ==> n <= s.m[k])
    && (forall p :: q <= p < |s.callers| && s.callers[p].call < |s.calls| && s.calls[s.callers[p].call].key == k ==>
         n <= s.callers[p].call)
  }

  lemma StepKeepsFresh(s: State, a: Action, k: Key, n: nat, q: nat)
    requires MapInv(s) && Enabled(s, a) && Fresh(s, k, n, q)
    requires forall p :: 0 <= p < |s.callers| ==> s.callers[p].call < |s.calls|
    ensures Fresh(Apply(s, a), k, n, q)
  {
  }

  lemma {:induction false} ScheduleKeepsFresh(s: State, sched: Schedule, k: Key, n: nat, q: nat)
    requires Inv(s) && Possible(s, sched) && Fresh(s, k, n, q)
    ensures Fresh(After(s, sched), k, n, q) && Inv(After(s, sched))
    decreases |sched|
  {
    if sched != [] {
      StepInv(s, sched[0]);
      StepKeepsFresh(s, sched[0], k, n, q);
      ScheduleKeepsFresh(Apply(s, sched[0]), sched[1..], k, n, q);
    }
  }

  /** Whoever calls for a key after `Forget(key)` attaches to a call that began after it. */
  lemma ForgetGivesFreshCalls(before: State, k: Key, post: Schedule, p: nat)
    requires Reachable(before) && Enabled(before, Forget(k))
    requires Possible(Apply(before, Forget(k)), post)
    requires |before.callers| <= p < |After(Apply(before, Forget(k)), post).callers|
    ensures var s := After(Apply(before, Forget(k)), post);
      && s.callers[p].call < |s.calls|
      && (s.calls[s.callers[p].call].key == k ==> |before.calls| <= s.callers[p].call)
  {
    ReachableInv(before);
    StepInv(before, Forget(k));
    ScheduleKeepsFresh(Apply(before, Forget(k)), post, k, |before.calls|, |before.callers|);
  }

  // ---------------------------------------------------------------- progress

  function CallWork(c: Call): int {
    match c.phase
    case Executing => 2
    case Exited => 1
    case Completed => 0
  }

  function CallerWork(c: Caller): int {
    if c.ret.None? && !c.role.Subscriber? then 1 else 0
  }

  /** What the group still has to do for the callers it has. */
  function Work(s: State): int { Total(CallWork, s.calls) + Total(CallerWork, s.callers) }

  lemma StepDoesWork(s: State, a: Action)
    requires Enabled(s, a) && (a.FnExits? || a.Complete? || a.Return?)
    ensures 0 <= Work(Apply(s, a)) == Work(s) - 1
  {
    var s' := Apply(s, a);
    if a.Return? {
      TotalUpdate(CallerWork, s.callers, a.p, s'.callers[a.p]);
    } else {
      TotalUpdate(CallWork, s.calls, a.c, s'.calls[a.c]);
    }
    TotalNonNegative(CallWork, s'.calls);
    TotalNonNegative(CallerWork, s'.callers);
  }

  /** While a caller has not been served something can move, and (StepDoesWork) only finitely much
      work is left: if every fn ends, no joiner and no subscriber waits for ever. */
  lemma NobodyIsStuck(s: State, p: nat, v: Value)
    requires Reachable(s) && p < |s.callers| && !s.hung
    ensures var caller := s.callers[p];
      caller.call < |s.calls| &&
      match s.calls[caller.call].phase
      case Executing => Enabled(s, FnExits(caller.call, Normal(v, None)))
      case Exited => Enabled(s, Complete(caller.call))
      case Completed =>
        if caller.role.Subscriber?
        then Deliverable(s.calls[caller.call].err) ==> caller.role.ch < |s.sent| && |s.sent[caller.role.ch]| == 1
        else caller.ret.Some? || Enabled(s, Return(p))
  {
    ReachableInv(s);
    var c := s.callers[p].call;
    if s.calls[c].phase.Exited? {
      CompletionNeverBlocks(s, c);
    } else if s.calls[c].phase.Completed? && Deliverable(s.calls[c].err) {
      OneResult(s, c);
    }
  }
}
