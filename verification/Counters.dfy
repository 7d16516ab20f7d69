/** Byte counters: what a list of them is told, and when unwrapping counted values ends. */
module Counters {
  import opened Prelude

  type CounterId = nat

  /** How often a counter occurs in a list of counters. */
  function Count(cs: seq<CounterId>, c: CounterId): nat { multiset(cs)[c] }

  /** What a counter gains when each counter of a list is called with `n`. */
  function Charge(n: int, cs: seq<CounterId>, c: CounterId): int { n * Count(cs, c) }

  lemma ChargeAdd(a: int, b: int, cs: seq<CounterId>, c: CounterId)
    ensures Charge(a + b, cs, c) == Charge(a, cs, c) + Charge(b, cs, c)
    ensures Charge(0, cs, c) == 0
  {
  }

  lemma ChargeConcat(n: int, cs: seq<CounterId>, ds: seq<CounterId>, c: CounterId)
    ensures Charge(n, cs + ds, c) == Charge(n, cs, c) + Charge(n, ds, c)
    ensures Charge(n, [], c) == 0
    ensures c !in cs ==> Charge(n, cs, c) == 0
  {
    assert Count(cs + ds, c) == Count(cs, c) + Count(ds, c);
  }

  /** The totals that the counter functions keep, one for each counter. */
  class Ledger {
    var totals: CounterId -> int

    constructor ()
      ensures forall c: CounterId :: totals(c) == 0
    {
      totals := (c: CounterId) => 0;
    }

    /** Calls every counter of a list with `n`. */
    method Call(cs: seq<CounterId>, n: int)
      modifies this
      ensures forall c: CounterId :: totals(c) == old(totals)(c) + Charge(n, cs, c)
    {
      assert cs[..0] == [];
      for i := 0 to |cs|
        invariant forall c: CounterId :: totals(c) == old(totals)(c) + Charge(n, cs[..i], c)
      {
        var k, t := cs[i], totals;
        totals := (c: CounterId) => if c == k then t(c) + n else t(c);
        assert cs[..i + 1] == cs[..i] + [k];
        forall c: CounterId
          ensures totals(c) == old(totals)(c) + Charge(n, cs[..i + 1], c)
        {
          ChargeConcat(n, cs[..i], [k], c);
          assert Count([k], c) == if c == k then 1 else 0;
        }
      }
      assert cs[..|cs|] == cs;
    }
  }

  // ---------------------------------------------------------------- any implementation

  /** A reader or writer as the unwrapping loops see it: the counters it offers, if it counts at
      all, and the value under it, if it says. */
  datatype Value = Value(counters: Option<seq<CounterId>>, under: Option<Value>)

  /** One pass of UnwrapWriterCounter's loop; a counter that hides what is under it is met again. */
  function WriterPass(v: Value): Value {
    if v.counters.Some? && v.under.Some? then v.under.value else v
  }

  function WriterAfter(v: Value, passes: nat): Value {
    if passes == 0 then v else WriterAfter(WriterPass(v), passes - 1)
  }

  /** The loop of UnwrapWriterCounter leaves at a value that does not count. */
  ghost predicate WriterLoopEnds(v: Value) {
    exists k: nat :: WriterAfter(v, k).counters.None?
  }

  /** Every counter on the way down shows what is under it. */
  predicate ShowsItsUnderlay(v: Value) {
    v.counters.Some? ==> v.under.Some? && ShowsItsUnderlay(v.under.value)
  }

  lemma {:induction false} HiddenUnderlaySpins(v: Value, k: nat)
    requires !ShowsItsUnderlay(v)
    ensures WriterAfter(v, k).counters.Some?
    decreases k
  {
    if k > 0 {
      HiddenUnderlaySpins(WriterPass(v), k - 1);
    }
  }

  lemma {:induction false} ShownUnderlayEnds(v: Value) returns (k: nat)
    requires ShowsItsUnderlay(v)
    ensures WriterAfter(v, k).counters.None?
  {
    if v.counters.None? {
      k := 0;
    } else {
      var j := ShownUnderlayEnds(v.under.value);
      k := j + 1;
      assert WriterPass(v) == v.under.value;
    }
  }

  /** Unwrapping a writer ends exactly when no counter on the way hides its underlay. */
  lemma WriterLoopEndsExactlyWhen(v: Value)
    ensures WriterLoopEnds(v) <==> ShowsItsUnderlay(v)
  {
    if ShowsItsUnderlay(v) {
      var k := ShownUnderlayEnds(v);
    } else {
      forall k: nat
        ensures WriterAfter(v, k).counters.Some?
      {
        HiddenUnderlaySpins(v, k);
      }
    }
  }
}
