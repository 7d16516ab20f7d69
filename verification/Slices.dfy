/** The slice and map helpers under the log handler. */
module Slices {
  import opened Prelude

  ghost predicate HasKey<T, C>(arr: seq<T>, key: T -> C, c: C) {
    exists i :: 0 <= i < |arr| && key(arr[i]) == c
  }

  /** The elements that no later element repeats the key of. */
  ghost function LastOnes<T, C>(arr: seq<T>, key: T -> C): seq<T> {
    if arr == [] then []
    else (if HasKey(arr[1..], key, key(arr[0])) then [] else [arr[0]]) + LastOnes(arr[1..], key)
  }

  /** Where a key occurs last. */
  ghost function LastIndex<T, C>(arr: seq<T>, key: T -> C, c: C): (k: nat)
    requires HasKey(arr, key, c)
    ensures k < |arr| && key(arr[k]) == c && forall j :: k < j < |arr| ==> key(arr[j]) != c
  {
    if HasKey(arr[1..], key, c) then 1 + LastIndex(arr[1..], key, c)
    else
      assert forall j :: 0 < j < |arr| ==> key(arr[j]) == key(arr[1..][j - 1]);
      0
  }

  /** What writing the elements one by one leaves in a map. */
  ghost function WriteAll<T, C>(m: map<C, T>, arr: seq<T>, key: T -> C): map<C, T>
    decreases |arr|
  {
    if arr == [] then m else WriteAll(m[key(arr[0]) := arr[0]], arr[1..], key)
  }

  lemma HasKeyCons<T, C>(arr: seq<T>, key: T -> C, c: C)
    requires arr != []
    ensures HasKey(arr, key, c) <==> key(arr[0]) == c || HasKey(arr[1..], key, c)
  {
    if i :| 0 <= i < |arr| && key(arr[i]) == c {
      assert i > 0 ==> arr[1..][i - 1] == arr[i];
    }
    if j :| 0 <= j < |arr[1..]| && key(arr[1..][j]) == c {
      assert arr[j + 1] == arr[1..][j];
    }
  }

  lemma {:induction false} LastOnesKeys<T, C>(arr: seq<T>, key: T -> C, c: C)
    ensures HasKey(LastOnes(arr, key), key, c) <==> HasKey(arr, key, c)
  {
    if arr != [] {
      var rest := LastOnes(arr[1..], key);
      LastOnesKeys(arr[1..], key, c);
      HasKeyCons(arr, key, c);
      if HasKey(arr[1..], key, key(arr[0])) {
        assert [] + rest == rest;
      } else {
        assert ([arr[0]] + rest)[1..] == rest;
        HasKeyCons([arr[0]] + rest, key, c);
      }
    }
  }

  /** Each of them is the last element with its key. */
  lemma {:induction false} LastOnesAt<T, C>(arr: seq<T>, key: T -> C, i: nat)
    requires i < |LastOnes(arr, key)|
    ensures var one := LastOnes(arr, key)[i];
      HasKey(arr, key, key(one)) && one == arr[LastIndex(arr, key, key(one))]
  {
    var ones, rest := LastOnes(arr, key), LastOnes(arr[1..], key);
    HasKeyCons(arr, key, key(ones[i]));
    if HasKey(arr[1..], key, key(arr[0])) {
      assert ones == rest;
      LastOnesAt(arr[1..], key, i);
    } else if i > 0 {
      assert ones[i] == rest[i - 1];
      LastOnesAt(arr[1..], key, i - 1);
    }
  }

  /** They are in the order of those positions; so no key comes twice. */
  lemma {:induction false} LastOnesInOrder<T, C>(arr: seq<T>, key: T -> C, i: nat, j: nat)
    requires i < j < |LastOnes(arr, key)|
    ensures var ones := LastOnes(arr, key);
      && HasKey(arr, key, key(ones[i])) && HasKey(arr, key, key(ones[j]))
      && LastIndex(arr, key, key(ones[i])) < LastIndex(arr, key, key(ones[j]))
      && key(ones[i]) != key(ones[j])
  {
    hide *;
    LastOnesCons(arr, key);
    LastOnesAt(arr, key, i);
    LastOnesAt(arr, key, j);
    var ones := LastOnes(arr, key);
    LastIndexCons(arr, key, key(ones[i]));
    LastIndexCons(arr, key, key(ones[j]));
    if HasKey(arr[1..], key, key(arr[0])) {
      LastOnesInOrder(arr[1..], key, i, j);
    } else {
      LastOnesAt(arr[1..], key, j - 1);
      if i > 0 {
        LastOnesInOrder(arr[1..], key, i - 1, j - 1);
      }
    }
  }

  lemma LastIndexCons<T, C>(arr: seq<T>, key: T -> C, c: C)
    requires HasKey(arr, key, c)
    ensures arr != []
    ensures LastIndex(arr, key, c) == if HasKey(arr[1..], key, c) then 1 + LastIndex(arr[1..], key, c) else 0
  {
  }

  lemma LastOnesCons<T, C>(arr: seq<T>, key: T -> C)
    requires LastOnes(arr, key) != []
    ensures var ones, rest := LastOnes(arr, key), LastOnes(arr[1..], key);
      if HasKey(arr[1..], key, key(arr[0])) then ones == rest
      else |ones| == 1 + |rest| && ones[0] == arr[0] && forall k :: 0 < k < |ones| ==> ones[k] == rest[k - 1]
  {
  }

  lemma {:induction false} WriteAllAgain<T, C>(m: map<C, T>, a: seq<T>, b: seq<T>, key: T -> C)
    ensures WriteAll(m, a + b, key) == WriteAll(WriteAll(m, a, key), b, key)
    decreases |a|
  {
    if a == [] {
      assert a + b == b;
    } else {
      assert (a + b)[1..] == a[1..] + b;
      WriteAllAgain(m[key(a[0]) := a[0]], a[1..], b, key);
    }
  }

  /** Writing afterwards overrides what was there. */
  lemma {:induction false} WriteAllOverrides<T, C>(m: map<C, T>, arr: seq<T>, key: T -> C)
    ensures WriteAll(m, arr, key) == m + WriteAll(map[], arr, key)
    decreases |arr|
  {
    if arr != [] {
      var k, x := key(arr[0]), arr[0];
      WriteAllOverrides(m[k := x], arr[1..], key);
      WriteAllOverrides(map[k := x], arr[1..], key);
      var rest := WriteAll(map[], arr[1..], key);
      assert m[k := x] + rest == m + (map[k := x] + rest);
    }
  }

  lemma {:induction false} WriteAllKeys<T, C>(arr: seq<T>, key: T -> C, c: C)
    ensures c in WriteAll(map[], arr, key) <==> HasKey(arr, key, c)
    ensures HasKey(arr, key, c) ==> WriteAll(map[], arr, key)[c] == arr[LastIndex(arr, key, c)]
    decreases |arr|
  {
    if arr != [] {
      HasKeyCons(arr, key, c);
      WriteAllOverrides(map[key(arr[0]) := arr[0]], arr[1..], key);
      WriteAllKeys(arr[1..], key, c);
    }
  }

  /** Keeping only the last ones does not change what is written. */
  lemma {:induction false} LastOnesWriteTheSame<T, C>(arr: seq<T>, key: T -> C)
    ensures WriteAll(map[], LastOnes(arr, key), key) == WriteAll(map[], arr, key)
  {
    if arr != [] {
      var k, rest := key(arr[0]), LastOnes(arr[1..], key);
      LastOnesWriteTheSame(arr[1..], key);
      WriteAllOverrides(map[k := arr[0]], arr[1..], key);
      WriteAllKeys(arr[1..], key, k);
      if HasKey(arr[1..], key, k) {
        assert [] + rest == rest;
      } else {
        assert ([arr[0]] + rest)[1..] == rest;
        WriteAllOverrides(map[k := arr[0]], rest, key);
      }
    }
  }

  /** One step of the backward scan. */
  lemma ScanStep<T, C>(arr: seq<T>, key: T -> C, i: nat)
    requires i < |arr|
    ensures LastOnes(arr[i..], key) ==
      (if HasKey(arr[i + 1..], key, key(arr[i])) then [] else [arr[i]]) + LastOnes(arr[i + 1..], key)
    ensures forall c :: HasKey(arr[i..], key, c) <==> key(arr[i]) == c || HasKey(arr[i + 1..], key, c)
  {
    assert arr[i..][1..] == arr[i + 1..];
    forall c
      ensures HasKey(arr[i..], key, c) <==> key(arr[i]) == c || HasKey(arr[i + 1..], key, c)
    {
      HasKeyCons(arr[i..], key, c);
    }
  }

  lemma ScanStart<T, C>(arr: seq<T>, key: T -> C)
    ensures LastOnes(arr[|arr|..], key) == [] && forall c :: !HasKey(arr[|arr|..], key, c)
    ensures arr[0..] == arr
  {
  }

  /** The first half of UniqByLast: a backward scan into a slice with room for everything. */
  method Scan<T(0), C(==, !new)>(arr: seq<T>, block: T -> C) returns (result: array<T>, n: nat)
    ensures fresh(result) && n <= result.Length && n == |LastOnes(arr, block)|
    ensures forall k :: 0 <= k < n ==> result[k] == LastOnes(arr, block)[n - 1 - k]
  {
    hide *;
    result, n := new T[|arr|], 0;
    var seen: set<C> := {};
    ScanStart(arr, block);
    for i := |arr| downto 0
      invariant n <= |arr| - i && n == |LastOnes(arr[i..], block)|
      invariant forall k :: 0 <= k < n ==> result[k] == LastOnes(arr[i..], block)[n - 1 - k]
      invariant forall c :: c in seen <==> HasKey(arr[i..], block, c)
    {
      ScanStep(arr, block, i);
      ghost var rest := LastOnes(arr[i + 1..], block);
      var c := block(arr[i]);
      if c in seen {
        assert [] + rest == rest;
        continue;
      }
      seen := seen + {c};
      result[n] := arr[i];
      n := n + 1;
    }
  }

  /** UniqByLast: the scan, reversed in place. */
  method UniqByLast<T(0), C(==, !new)>(arr: seq<T>, block: T -> C) returns (out: seq<T>)
    ensures out == LastOnes(arr, block)
  {
    hide *;
    var result, n := Scan(arr, block);
    ghost var ones := LastOnes(arr, block);
    var i: int, j: int := 0, n - 1;
    while i < j
      invariant i + j == n - 1 && 0 <= i <= j + 2
      invariant forall k :: i <= k <= j ==> result[k] == ones[n - 1 - k]
      invariant forall k :: 0 <= k < n && !(i <= k <= j) ==> result[k] == ones[k]
    {
      result[i], result[j] := result[j], result[i];
      i, j := i + 1, j - 1;
    }
    out := result[..n];
  }

  method Map<T, N>(arr: seq<T>, block: T -> N) returns (out: seq<N>)
    ensures |out| == |arr| && forall i :: 0 <= i < |arr| ==> out[i] == block(arr[i])
  {
    out := [];
    for i := 0 to |arr|
      invariant |out| == i && forall j :: 0 <= j < i ==> out[j] == block(arr[j])
    {
      out := out + [block(arr[i])];
    }
  }

  /** Each value with the position of its last occurrence. */
  method IndexMap<E(==)>(s: seq<E>) returns (ret: map<E, int>)
    ensures forall e :: e in ret <==> e in s
    ensures forall e :: e in ret ==> 0 <= ret[e] < |s| && s[ret[e]] == e
    ensures forall e, i :: e in ret && ret[e] < i < |s| ==> s[i] != e
  {
    ret := map[];
    for i := 0 to |s|
      invariant forall e :: e in ret <==> e in s[..i]
      invariant forall e :: e in ret ==> 0 <= ret[e] < i && s[ret[e]] == e
      invariant forall e, j :: e in ret && ret[e] < j < i ==> s[j] != e
    {
      assert s[..i + 1] == s[..i] + [s[i]];
      ret := ret[s[i] := i];
    }
    assert s[..|s|] == s;
  }
}
