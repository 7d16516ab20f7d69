/** The locked regions of the duplicate-suppression group, in the form the code has. */
module SingleflightRegions {
  import opened Prelude
  import opened Singleflight

  /** `Group` with its map; the calls its map points to and the channels they hold live in the
      fields beside it, addressed by number. */
  class Group {
    var m: map<Key, nat>
    var calls: seq<Call>
    var sent: seq<seq<Result>>
    ghost var callers: seq<Caller>
    ghost var owner: seq<nat>
    var hung: bool

    ghost function View(): State
      reads this
    {
      State(m, calls, callers, sent, owner, hung)
    }

    constructor ()
      ensures View() == Init
    {
      m, calls, sent, callers, owner, hung := map[], [], [], [], [], false;
    }

    /** `Do` up to the point where it waits (or runs fn as leader). */
    method DoEnter(key: Key) returns (c: nat, leader: bool)
      requires Enabled(View(), Do(key))
      modifies this
      ensures View() == Apply(old(View()), Do(key))
      ensures c == callers[|old(callers)|].call && leader == callers[|old(callers)|].role.Leader?
    {
      if key in m {
        c, leader := m[key], false;
        calls := calls[c := calls[c].(dups := calls[c].dups + 1)];
        assert calls[c].chans + [] == calls[c].chans;
        callers := callers + [Caller(c, Joiner, None)];
      } else {
        c, leader := |calls|, true;
        calls := calls + [Call(key, Executing, None, None, 0, [], false)];
        m := m[key := c];
        callers := callers + [Caller(c, Leader, None)];
      }
    }

    /** `DoChan` up to the point where it returns its channel (and may start doCall). */
    method DoChanEnter(key: Key) returns (ch: nat, leader: bool)
      requires Enabled(View(), DoChan(key)) && |sent| == |owner|
      modifies this
      ensures View() == Apply(old(View()), DoChan(key))
      ensures ch == |old(sent)| && leader == (key !in old(m))
    {
      ch := |sent|;
      sent := sent + [[]];
      if key in m {
        var c := m[key];
        leader := false;
        calls := calls[c := calls[c].(dups := calls[c].dups + 1, chans := calls[c].chans + [ch])];
        callers, owner := callers + [Caller(c, Subscriber(ch), None)], owner + [c];
      } else {
        var c := |calls|;
        leader := true;
        calls := calls + [Call(key, Executing, None, None, 0, [ch], false)];
        m := m[key := c];
        callers, owner := callers + [Caller(c, Subscriber(ch), None)], owner + [c];
      }
    }

    /** The deferred locked region of doCall. */
    method Finish(c: nat)
      requires Enabled(View(), Complete(c))
      modifies this
      ensures View() == Apply(old(View()), Complete(c))
    {
      var call := calls[c];
      calls := calls[c := call.(phase := Completed)];
      if call.key in m && m[call.key] == c {
        m := m - {call.key};
      }
      if call.err.Some? && call.err.value.PanicErr? {
        if |call.chans| > 0 {
          hung := true;
        }
      } else if call.err == Some(GoexitErr) {
        // Already unwinding.
      } else {
        var i := 0;
        while i < |call.chans|
          invariant 0 <= i <= |call.chans| && |sent| == |old(sent)|
          invariant Deliver(sent, call.chans[i..], ResultOf(call)) == Deliver(old(sent), call.chans, ResultOf(call))
          invariant m == CompleteCall(old(View()), c).m && calls == CompleteCall(old(View()), c).calls
          invariant callers == old(callers) && owner == old(owner) && !hung
        {
          var ch := call.chans[i];
          assert call.chans[i..][0] == ch && call.chans[i..][1..] == call.chans[i + 1..];
          sent := sent[ch := sent[ch] + [ResultOf(call)]];
          i := i + 1;
        }
      }
    }

    method ForgetKey(key: Key)
      requires Enabled(View(), Forget(key))
      modifies this
      ensures View() == Apply(old(View()), Forget(key))
    {
      if key in m {
        calls := calls[m[key] := calls[m[key]].(forgotten := true)];
      }
      m := m - {key};
      assert key !in old(m) ==> m == old(m);
    }
  }
}
