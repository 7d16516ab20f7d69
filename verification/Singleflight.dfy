/**
 Duplicate call suppression: `Group.Do`, `DoChan`, `doCall` and `Forget` as a transition system.

 Each region the code runs under `g.mu` is one atomic action. Calls, callers and channels are
 numbered in the order in which they are made; a pointer to a call is its number.
 */
module Singleflight {
  import opened Prelude
  import opened Sums

  type Key(==, !new)
  type Value(==, !new)

  /** `PanicErr` is a `*panicError`, `GoexitErr` the package's errGoexit. */
  datatype Err = Plain(code: int) | PanicErr(value: int) | GoexitErr

  datatype Phase =
    | Executing   // fn is running
    | Exited      // fn is gone, doCall has not taken the lock yet
    | Completed   // the deferred locked region has run

  /** `val` stays None (the zero value) unless fn returned normally. `forgotten` is history. */
  datatype Call = Call(
    key: Key, phase: Phase, val: Option<Value>, err: Option<Err>,
    dups: nat, chans: seq<nat>, forgotten: bool)

  /** How fn ends. It cannot return errGoexit, which never leaves the package. */
  datatype Exit = Normal(val: Value, err: Option<Err>) | Panics(value: int) | Goexits

  datatype Role = Leader | Joiner | Subscriber(ch: nat)

  datatype Return = Returns(val: Option<Value>, err: Option<Err>, shared: bool) | Panicked(value: int) | Unwound

  /** One call of `Do` or `DoChan`, and how it ended; a DoChan caller waits on its channel. */
  datatype Caller = Caller(call: nat, role: Role, ret: Option<Return>)

  datatype Result = Result(val: Option<Value>, err: Option<Err>, shared: bool)

  /** `sent[ch]` is everything ever sent on channel `ch`, which has capacity 1; `owner[ch]` is the
      call it was made for (history). When `hung`, a panic is about to crash the process while the
      lock is held. */
  datatype State = State(
    m: map<Key, nat>, calls: seq<Call>, callers: seq<Caller>,
    sent: seq<seq<Result>>, owner: seq<nat>, hung: bool)

  datatype Action =
    | Do(key: Key)
    | DoChan(key: Key)
    | FnExits(c: nat, exit: Exit)
    | Complete(c: nat)
    | Return(p: nat)
    | Forget(key: Key)

  const Init := State(map[], [], [], [], [], false)

  /** A normal return in doCall's eyes: neither a panic nor a Goexit. */
  predicate Deliverable(err: Option<Err>) { err.None? || err.value.Plain? }

  function ResultOf(c: Call): Result { Result(c.val, c.err, c.dups > 0) }

  /** How a `Do` caller leaves a completed call. */
  function Leave(c: Call, role: Role): Return {
    if c.err.Some? && c.err.value.PanicErr? then Panicked(c.err.value.value)
    else if c.err == Some(GoexitErr) then Unwound
    else Returns(c.val, c.err, role.Joiner? || c.dups > 0)
  }

  /** The sends of the loop over `c.chans`. */
  function Deliver(sent: seq<seq<Result>>, chans: seq<nat>, res: Result): (after: seq<seq<Result>>)
    requires forall i :: 0 <= i < |chans| ==> chans[i] < |sent|
    ensures |after| == |sent|
    decreases |chans|
  {
    if chans == [] then sent
    else Deliver(sent[chans[0] := sent[chans[0]] + [res]], chans[1..], res)
  }

  /** Some actions wait: a send needs room in its channel, a caller needs the wait group. */
  predicate Enabled(s: State, a: Action) {
    !s.hung &&
    match a
    case Do(key) => key in s.m ==> s.m[key] < |s.calls|
    case DoChan(key) => key in s.m ==> s.m[key] < |s.calls|
    case FnExits(c, exit) =>
      c < |s.calls| && s.calls[c].phase.Executing? && (exit.Normal? ==> exit.err != Some(GoexitErr))
    case Complete(c) =>
      && c < |s.calls| && s.calls[c].phase.Exited?
      && (Deliverable(s.calls[c].err) ==>
           forall i :: 0 <= i < |s.calls[c].chans| ==> s.calls[c].chans[i] < |s.sent| && s.sent[s.calls[c].chans[i]] == [])
    case Return(p) =>
      && p < |s.callers| && s.callers[p].ret.None? && !s.callers[p].role.Subscriber?
      && s.callers[p].call < |s.calls| && s.calls[s.callers[p].call].phase.Completed?
    case Forget(key) => key in s.m ==> s.m[key] < |s.calls|
  }

  function Enter(s: State, key: Key, chans: seq<nat>): (State, nat)
    requires key in s.m ==> s.m[key] < |s.calls|
  {
    if key in s.m then
      var c := s.m[key];
      var call := s.calls[c];
      (s.(calls := s.calls[c := call.(dups := call.dups + 1, chans := call.chans + chans)]), c)
    else
      var c := |s.calls|;
      (s.(m := s.m[key := c], calls := s.calls + [Call(key, Executing, None, None, 0, chans, false)]), c)
  }

  function ExitCall(call: Call, exit: Exit): Call {
    match exit
    case Normal(v, e) => call.(phase := Exited, val := Some(v), err := e)
    case Panics(x) => call.(phase := Exited, err := Some(PanicErr(x)))
    case Goexits => call.(phase := Exited, err := Some(GoexitErr))
  }

  function CompleteCall(s: State, c: nat): State
    requires Enabled(s, Complete(c))
  {
    var call := s.calls[c];
    s.(calls := s.calls[c := call.(phase := Completed)],
       m := if call.key in s.m && s.m[call.key] == c then s.m - {call.key} else s.m,
       sent := if Deliverable(call.err) then Deliver(s.sent, call.chans, ResultOf(call)) else s.sent,
       hung := call.err.Some? && call.err.value.PanicErr? && call.chans != [])
  }

  function ForgetKey(s: State, key: Key): State
    requires key in s.m ==> s.m[key] < |s.calls|
  {
    if key in s.m
    then s.(m := s.m - {key}, calls := s.calls[s.m[key] := s.calls[s.m[key]].(forgotten := true)])
    else s
  }

  function Apply(s: State, a: Action): State
    requires Enabled(s, a)
  {
    match a
    case Do(key) =>
      var (s', c) := Enter(s, key, []);
      s'.(callers := s.callers + [Caller(c, if key in s.m then Joiner else Leader, None)])
    case DoChan(key) =>
      var (s', c) := Enter(s, key, [|s.sent|]);
      s'.(callers := s.callers + [Caller(c, Subscriber(|s.sent|), None)],
          sent := s.sent + [[]], owner := s.owner + [c])
    case FnExits(c, exit) => s.(calls := s.calls[c := ExitCall(s.calls[c], exit)])
    case Complete(c) => CompleteCall(s, c)
    case Return(p) =>
      var caller := s.callers[p];
      s.(callers := s.callers[p := caller.(ret := Some(Leave(s.calls[caller.call], caller.role)))])
    case Forget(key) => ForgetKey(s, key)
  }

  type Schedule = seq<Action>

  predicate Possible(s: State, sched: Schedule)
    decreases |sched|
  {
    sched != [] ==> Enabled(s, sched[0]) && Possible(Apply(s, sched[0]), sched[1..])
  }

  function After(s: State, sched: Schedule): State
    requires Possible(s, sched)
    decreases |sched|
  {
    if sched == [] then s else After(Apply(s, sched[0]), sched[1..])
  }

  // ---------------------------------------------------------------- the invariant

  /** How many callers are attached to call `c`. */
  function Attached(callers: seq<Caller>, c: nat): nat {
    if callers == [] then 0
    else Attached(callers[..|callers| - 1], c) + (if callers[|callers| - 1].call == c then 1 else 0)
  }

  ghost predicate MapInv(s: State) {
    && (forall k :: k in s.m ==>
         s.m[k] < |s.calls| && s.calls[s.m[k]].key == k
         && !s.calls[s.m[k]].phase.Completed? && !s.calls[s.m[k]].forgotten)
    && (forall c :: 0 <= c < |s.calls| && !s.calls[c].phase.Completed? && !s.calls[c].forgotten ==>
         s.calls[c].key in s.m && s.m[s.calls[c].key] == c)
  }

  ghost predicate CallerInv(s: State) {
    && (forall p :: 0 <= p < |s.callers| ==> s.callers[p].call < |s.calls|)
    && (forall c :: 0 <= c < |s.calls| ==> Attached(s.callers, c) == s.calls[c].dups + 1)
    && (forall p :: 0 <= p < |s.callers| && s.callers[p].role.Joiner? ==> 0 < s.calls[s.callers[p].call].dups)
    && (forall p :: 0 <= p < |s.callers| && s.callers[p].ret.Some? ==>
         var caller := s.callers[p];
         && !caller.role.Subscriber? && s.calls[caller.call].phase.Completed?
         && caller.ret.value == Leave(s.calls[caller.call], caller.role))
  }

  ghost predicate OwnsDistinct(chans: seq<nat>) {
    forall i, j :: 0 <= i < j < |chans| ==> chans[i] != chans[j]
  }

  /** What the channels of a call have been sent. */
  function Mail(c: Call): seq<Result> {
    if c.phase.Completed? && Deliverable(c.err) then [ResultOf(c)] else []
  }

  /** The channels of call `c` are its own, and hold its mail. */
  ghost predicate ChansOk(sent: seq<seq<Result>>, owner: seq<nat>, c: nat, call: Call) {
    && |owner| == |sent|
    && OwnsDistinct(call.chans)
    && (forall i :: 0 <= i < |call.chans| ==>
         && call.chans[i] < |sent|
         && owner[call.chans[i]] == c
         && sent[call.chans[i]] == Mail(call))
  }

  ghost predicate ChanInv(s: State) {
    && |s.owner| == |s.sent|
    && (forall c :: 0 <= c < |s.calls| ==> ChansOk(s.sent, s.owner, c, s.calls[c]))
    && (forall p :: 0 <= p < |s.callers| && s.callers[p].role.Subscriber? ==>
         s.callers[p].call < |s.calls| && s.callers[p].role.ch in s.calls[s.callers[p].call].chans)
  }

  predicate Sane(c: Call) {
    && (c.phase.Executing? ==> c.val.None? && c.err.None?)
    && (c.err == Some(GoexitErr) ==> c.val.None?)
  }

  predicate Crashes(c: Call) {
    c.phase.Completed? && c.chans != [] && c.err.Some? && c.err.value.PanicErr?
  }

  ghost predicate ErrInv(s: State) {
    && (forall c :: 0 <= c < |s.calls| ==> Sane(s.calls[c]))
    && (forall c :: 0 <= c < |s.calls| && Crashes(s.calls[c]) ==> s.hung)
  }

  ghost predicate Inv(s: State) {
    MapInv(s) && CallerInv(s) && ChanInv(s) && ErrInv(s)
  }

  lemma AttachedAppend(callers: seq<Caller>, x: Caller, c: nat)
    ensures Attached(callers + [x], c) == Attached(callers, c) + (if x.call == c then 1 else 0)
  {
    assert (callers + [x])[..|callers|] == callers;
  }

  lemma {:induction false} AttachedUpdate(callers: seq<Caller>, p: nat, x: Caller, c: nat)
    requires p < |callers| && x.call == callers[p].call
    ensures Attached(callers[p := x], c) == Attached(callers, c)
    decreases |callers|
  {
    var n := |callers| - 1;
    if p < n {
      assert callers[p := x][..n] == callers[..n][p := x];
      AttachedUpdate(callers[..n], p, x, c);
    } else {
      assert callers[p := x][..n] == callers[..n];
    }
  }

  lemma {:induction false} AttachedNone(callers: seq<Caller>, c: nat)
    requires forall p :: 0 <= p < |callers| ==> callers[p].call != c
    ensures Attached(callers, c) == 0
    decreases |callers|
  {
    if callers != [] {
      AttachedNone(callers[..|callers| - 1], c);
    }
  }

  /** Each listed channel gets the result once, the others nothing. */
  lemma {:induction false} DeliverOnce(sent: seq<seq<Result>>, chans: seq<nat>, res: Result)
    requires OwnsDistinct(chans) && forall i :: 0 <= i < |chans| ==> chans[i] < |sent|
    ensures forall ch :: 0 <= ch < |sent| ==>
      Deliver(sent, chans, res)[ch] == if ch in chans then sent[ch] + [res] else sent[ch]
    decreases |chans|
  {
    if chans != [] {
      assert OwnsDistinct(chans[1..]);
      assert chans[0] !in chans[1..];
      DeliverOnce(sent[chans[0] := sent[chans[0]] + [res]], chans[1..], res);
      assert forall ch :: ch in chans <==> ch == chans[0] || ch in chans[1..];
    }
  }

  lemma EnterMapInv(s: State, a: Action)
    requires MapInv(s) && Enabled(s, a) && (a.Do? || a.DoChan?)
    ensures MapInv(Apply(s, a))
  {
    var s', c := Apply(s, a), Enter(s, a.key, []).1;
    assert s'.calls[c].key == a.key && s'.m[a.key] == c;
    assert forall d :: 0 <= d < |s.calls| && d != c ==> s'.calls[d] == s.calls[d];
  }

  lemma EnterErrInv(s: State, a: Action)
    requires MapInv(s) && ErrInv(s) && Enabled(s, a) && (a.Do? || a.DoChan?)
    ensures ErrInv(Apply(s, a))
  {
  }

  lemma JoinCallerInv(s: State, a: Action)
    requires MapInv(s) && CallerInv(s) && Enabled(s, a) && (a.Do? || a.DoChan?) && a.key in s.m
    ensures CallerInv(Apply(s, a))
  {
    hide Attached;
    var s' := Apply(s, a);
    Joined(s, a);
    forall c | 0 <= c < |s'.calls|
      ensures Attached(s'.callers, c) == s'.calls[c].dups + 1
    {
      AttachedAppend(s.callers, s'.callers[|s.callers|], c);
    }
    hide Apply;
  }

  lemma Joined(s: State, a: Action)
    requires MapInv(s) && Enabled(s, a) && (a.Do? || a.DoChan?) && a.key in s.m
    ensures var s', c := Apply(s, a), s.m[a.key];
      && |s'.calls| == |s.calls| && (forall d :: 0 <= d < |s.calls| && d != c ==> s'.calls[d] == s.calls[d])
      && s'.calls[c].dups == s.calls[c].dups + 1 && s'.calls[c].phase == s.calls[c].phase != Completed
  {
  }

  lemma LeadCallerInv(s: State, a: Action)
    requires MapInv(s) && CallerInv(s) && Enabled(s, a) && (a.Do? || a.DoChan?) && a.key !in s.m
    ensures CallerInv(Apply(s, a))
  {
    var s' := Apply(s, a);
    AttachedNone(s.callers, |s.calls|);
    forall c | 0 <= c < |s'.calls|
      ensures Attached(s'.callers, c) == s'.calls[c].dups + 1
    {
      AttachedAppend(s.callers, s'.callers[|s.callers|], c);
    }
  }

  lemma DoChanInv(s: State, key: Key)
    requires Inv(s) && Enabled(s, DoChan(key))
    ensures ChanInv(Apply(s, DoChan(key)))
  {
    var s' := Apply(s, DoChan(key));
    var c := s'.callers[|s.callers|].call;
    forall d | 0 <= d < |s'.calls|
      ensures ChansOk(s'.sent, s'.owner, d, s'.calls[d])
    {
      assert d < |s.calls| ==> ChansOk(s.sent, s.owner, d, s.calls[d]) && Mail(s'.calls[d]) == Mail(s.calls[d]);
    }
    forall p | 0 <= p < |s.callers| && s.callers[p].role.Subscriber?
      ensures s.callers[p].role.ch in s'.calls[s.callers[p].call].chans
    {
      assert s.callers[p].role.ch in s.calls[s.callers[p].call].chans;
    }
    assert s'.calls[c].chans[|s'.calls[c].chans| - 1] == |s.sent|;
  }

  /** An action that touches neither the channels nor the mail of any call keeps the channel invariant. */
  lemma SameChans(s: State, s': State)
    requires ChanInv(s) && s'.sent == s.sent && s'.owner == s.owner && |s.calls| <= |s'.calls|
    requires forall c :: 0 <= c < |s.calls| ==>
      s'.calls[c].chans == s.calls[c].chans && Mail(s'.calls[c]) == Mail(s.calls[c])
    requires forall c :: |s.calls| <= c < |s'.calls| ==> s'.calls[c].chans == []
    requires |s.callers| <= |s'.callers|
    requires forall p :: 0 <= p < |s.callers| ==>
      s'.callers[p].call == s.callers[p].call && s'.callers[p].role == s.callers[p].role
    requires forall p :: |s.callers| <= p < |s'.callers| ==> !s'.callers[p].role.Subscriber?
    ensures ChanInv(s')
  {
    forall c | 0 <= c < |s'.calls|
      ensures ChansOk(s'.sent, s'.owner, c, s'.calls[c])
    {
      assert c < |s.calls| ==> ChansOk(s.sent, s.owner, c, s.calls[c]);
    }
  }

  lemma FnExitsInv(s: State, c: nat, exit: Exit)
    requires Inv(s) && Enabled(s, FnExits(c, exit))
    ensures Inv(Apply(s, FnExits(c, exit)))
  {
    hide Attached, OwnsDistinct;
    var s' := Apply(s, FnExits(c, exit));
    assert forall d :: 0 <= d < |s.calls| && d != c ==> s'.calls[d] == s.calls[d];
    SameChans(s, s');
  }

  lemma CompleteChanInv(s: State, c: nat)
    requires Inv(s) && Enabled(s, Complete(c))
    ensures ChanInv(Apply(s, Complete(c)))
  {
    hide MapInv, CallerInv, ErrInv, Deliver;
    var s' := Apply(s, Complete(c));
    assert ChansOk(s.sent, s.owner, c, s.calls[c]);
    if Deliverable(s.calls[c].err) {
      DeliverOnce(s.sent, s.calls[c].chans, ResultOf(s.calls[c]));
    }
    forall d | 0 <= d < |s.calls|
      ensures ChansOk(s'.sent, s'.owner, d, s'.calls[d])
    {
      assert ChansOk(s.sent, s.owner, d, s.calls[d]);
    }
  }

  lemma CompleteInv(s: State, c: nat)
    requires Inv(s) && Enabled(s, Complete(c))
    ensures MapInv(Apply(s, Complete(c))) && CallerInv(Apply(s, Complete(c))) && ErrInv(Apply(s, Complete(c)))
  {
    hide Attached, ChanInv, Deliver;
    var s' := Apply(s, Complete(c));
    assert forall d :: 0 <= d < |s.calls| && d != c ==> s'.calls[d] == s.calls[d];
  }

  lemma ReturnInv(s: State, p: nat)
    requires Inv(s) && Enabled(s, Return(p))
    ensures Inv(Apply(s, Return(p)))
  {
    forall c | 0 <= c < |s.calls|
      ensures Attached(Apply(s, Return(p)).callers, c) == Attached(s.callers, c)
    {
      AttachedUpdate(s.callers, p, Apply(s, Return(p)).callers[p], c);
    }
  }

  lemma ForgetInv(s: State, key: Key)
    requires Inv(s) && Enabled(s, Forget(key))
    ensures Inv(Apply(s, Forget(key)))
  {
    hide Attached, OwnsDistinct;
    if key in s.m {
      var s' := Apply(s, Forget(key));
      assert forall d :: 0 <= d < |s.calls| && d != s.m[key] ==> s'.calls[d] == s.calls[d];
      SameChans(s, s');
    }
  }

  lemma EnterInv(s: State, a: Action)
    requires Inv(s) && Enabled(s, a) && (a.Do? || a.DoChan?)
    ensures Inv(Apply(s, a))
  {
    EnterMapInv(s, a);
    EnterErrInv(s, a);
    if a.Do? { SameChans(s, Apply(s, a)); } else { DoChanInv(s, a.key); }
    if a.key in s.m { JoinCallerInv(s, a); } else { LeadCallerInv(s, a); }
  }

  lemma StepInv(s: State, a: Action)
    requires Inv(s) && Enabled(s, a)
    ensures Inv(Apply(s, a))
  {
    match a
    case Do(_) => EnterInv(s, a);
    case DoChan(_) => EnterInv(s, a);
    case FnExits(c, exit) => FnExitsInv(s, c, exit);
    case Complete(c) => CompleteInv(s, c); CompleteChanInv(s, c);
    case Return(p) => ReturnInv(s, p);
    case Forget(key) => ForgetInv(s, key);
  }

  lemma {:induction false} ScheduleInv(s: State, sched: Schedule)
    requires Inv(s) && Possible(s, sched)
    ensures Inv(After(s, sched))
    decreases |sched|
  {
    if sched != [] {
      StepInv(s, sched[0]);
      ScheduleInv(Apply(s, sched[0]), sched[1..]);
    }
  }
}
