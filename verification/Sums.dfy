/** Sums over sequences: of a measure of the elements, and how they move when one changes; of lengths. */
module Sums {
  function Total<T>(f: T -> int, s: seq<T>): int {
    if s == [] then 0 else f(s[0]) + Total(f, s[1..])
  }

  lemma {:induction false} TotalAppend<T>(f: T -> int, s: seq<T>, t: seq<T>)
    ensures Total(f, s + t) == Total(f, s) + Total(f, t)
  {
    if s == [] {
      assert s + t == t;
    } else {
      assert (s + t)[1..] == s[1..] + t;
      TotalAppend(f, s[1..], t);
    }
  }

  lemma {:induction false} TotalUpdate<T>(f: T -> int, s: seq<T>, i: nat, x: T)
    requires i < |s|
    ensures Total(f, s[i := x]) == Total(f, s) - f(s[i]) + f(x)
  {
    if i == 0 {
      assert s[i := x][1..] == s[1..];
    } else {
      assert s[i := x][1..] == s[1..][i - 1 := x];
      TotalUpdate(f, s[1..], i - 1, x);
    }
  }

  lemma {:induction false} TotalNonNegative<T>(f: T -> int, s: seq<T>)
    requires forall x :: x in s ==> 0 <= f(x)
    ensures 0 <= Total(f, s)
    ensures forall i :: 0 <= i < |s| ==> f(s[i]) <= Total(f, s)
  {
    if s != [] {
      TotalNonNegative(f, s[1..]);
      assert forall i :: 0 < i < |s| ==> s[i] == s[1..][i - 1];
    }
  }

  /** A positive sum of non-negative terms has a positive term. */
  lemma {:induction false} TotalWitness<T>(f: T -> int, s: seq<T>) returns (i: nat)
    requires 0 < Total(f, s)
    ensures i < |s| && 0 < f(s[i])
  {
    if 0 < f(s[0]) {
      i := 0;
    } else {
      var j := TotalWitness(f, s[1..]);
      i := j + 1;
    }
  }

  lemma {:induction false} TotalMonotone<T>(f: T -> int, g: T -> int, s: seq<T>)
    requires forall x :: x in s ==> f(x) <= g(x)
    ensures Total(f, s) <= Total(g, s)
  {
    if s != [] {
      TotalMonotone(f, g, s[1..]);
    }
  }

  lemma {:induction false} TotalConstant<T>(f: T -> int, s: seq<T>, k: int)
    requires forall x :: x in s ==> f(x) == k
    ensures Total(f, s) == k * |s|
  {
    if s != [] {
      TotalConstant(f, s[1..], k);
    }
  }

  // ---------------------------------------------------------------- lengths

  predicate AllPositive(ns: seq<nat>) {
    forall i :: 0 <= i < |ns| ==> 0 < ns[i]
  }

  function Sum(ns: seq<nat>): nat {
    if ns == [] then 0 else ns[0] + Sum(ns[1..])
  }

  lemma {:induction false} SumConcat(a: seq<nat>, b: seq<nat>)
    ensures Sum(a + b) == Sum(a) + Sum(b)
  {
    if a == [] {
      assert a + b == b;
    } else {
      assert (a + b)[1..] == a[1..] + b;
      SumConcat(a[1..], b);
    }
  }

  lemma {:induction false} SumAt(ns: seq<nat>, i: nat)
    requires i < |ns|
    ensures Sum(ns) == Sum(ns[..i]) + ns[i] + Sum(ns[i + 1..])
  {
    assert ns == ns[..i] + ns[i..] && ns[i..][1..] == ns[i + 1..];
    SumConcat(ns[..i], ns[i..]);
  }
}
