/** The size-class allocator behind managed buffers: eleven pools of arrays of 2^6 to 2^16 bytes. */
module Alloc {
  import opened Prelude

  newtype byte = x: int | 0 <= x < 256

  const POOLS := 11
  const MAX_SIZE := 65536
  const UINT16 := 0x1_0000
  const UINT32 := 0x1_0000_0000

  function Pow2(k: nat): (p: nat)
    ensures 0 < p
  {
    if k == 0 then 1 else 2 * Pow2(k - 1)
  }

  /** bits.Len32: the number of bits of `x`. */
  function Len32(x: nat): nat {
    if x == 0 then 0 else 1 + Len32(x / 2)
  }

  /** The code's msb, with its conversions to uint32 and uint16. */
  function Msb(size: nat): (r: nat) {
    (Len32(size % UINT32) - 1) % UINT16
  }

  lemma {:induction false} Pow2Monotone(a: nat, b: nat)
    requires a <= b
    ensures Pow2(a) <= Pow2(b)
    ensures a < b ==> 2 * Pow2(a) <= Pow2(b)
    decreases b
  {
    if a < b {
      Pow2Monotone(a, b - 1);
    }
  }

  /** `Len32` brackets its argument between powers of two. */
  lemma {:induction false} Len32Brackets(x: nat)
    requires 0 < x
    ensures 0 < Len32(x) && Pow2(Len32(x) - 1) <= x < Pow2(Len32(x))
  {
    if x == 1 {
      assert Len32(0) == 0;
    } else {
      Len32Brackets(x / 2);
    }
  }

  lemma Len32Unique(x: nat, k: nat)
    requires Pow2(k) <= x < Pow2(k + 1)
    ensures Len32(x) == k + 1
  {
    Len32Brackets(x);
    if Len32(x) - 1 < k { Pow2Monotone(Len32(x), k); }
    if k + 1 < Len32(x) { Pow2Monotone(k + 1, Len32(x) - 1); }
  }

  lemma Pow2Values()
    ensures Pow2(5) == 32 && Pow2(6) == 64 && Pow2(16) == MAX_SIZE && Pow2(17) == 131072
  {
    assert Pow2(1) == 2 && Pow2(2) == 4 && Pow2(3) == 8 && Pow2(4) == 16;
    assert Pow2(7) == 128 && Pow2(8) == 256 && Pow2(9) == 512 && Pow2(10) == 1024;
    assert Pow2(11) == 2048 && Pow2(12) == 4096 && Pow2(13) == 8192 && Pow2(14) == 16384 && Pow2(15) == 32768;
  }

  lemma SmallMod(x: nat, m: nat)
    requires x < m
    ensures x % m == x
  {
  }

  lemma NegativeMod(x: int, m: nat)
    requires x < 0 <= x + m
    ensures x % m == x + m
  {
  }

  lemma MsbIsLen32(x: nat)
    requires x < UINT32 && 0 < Len32(x) <= UINT16
    ensures Msb(x) == Len32(x) - 1
  {
    SmallMod(x, UINT32);
    SmallMod(Len32(x) - 1, UINT16);
  }

  /** On sizes an array can have here, the position of the most significant bit. */
  lemma MsbBrackets(size: nat)
    requires 0 < size <= MAX_SIZE
    ensures Msb(size) <= 16 && Pow2(Msb(size)) <= size < Pow2(Msb(size) + 1)
  {
    Len32Brackets(size);
    Pow2Values();
    if 17 < Len32(size) {
      Pow2Monotone(17, Len32(size) - 1);
    }
    MsbIsLen32(size);
  }

  lemma MsbOfPow2(k: nat)
    requires k <= 16
    ensures 0 < Pow2(k) <= MAX_SIZE && Msb(Pow2(k)) == k
  {
    Pow2Values();
    Pow2Monotone(k, 16);
    var x := Pow2(k);
    assert x < Pow2(k + 1);
    Len32Unique(x, k);
    MsbIsLen32(x);
  }

  /** The pool that `Get` takes an array for `size` from. */
  function PoolIndex(size: nat): nat
    requires 0 < size <= MAX_SIZE
  {
    MsbBrackets(size);
    Pow2Values();
    if size <= 64 then 0
    else
      var index := Msb(size);
      assert 6 <= index by { if index < 6 { Pow2Monotone(index + 1, 6); } }
      (if size != Pow2(index) then index + 1 else index) - 6
  }

  /** The array length behind a size: the least power of two that holds it and 64 bytes, and less
      than twice the size above 64 bytes. */
  lemma SizeClass(size: nat)
    requires 0 < size <= MAX_SIZE
    ensures PoolIndex(size) < POOLS
    ensures size <= Pow2(PoolIndex(size) + 6) && 64 <= Pow2(PoolIndex(size) + 6)
    ensures 64 < size ==> Pow2(PoolIndex(size) + 6) < 2 * size
    ensures forall k: nat :: size <= Pow2(k) && 64 <= Pow2(k) ==> Pow2(PoolIndex(size) + 6) <= Pow2(k)
  {
    MsbBrackets(size);
    Pow2Values();
    PoolIndexCases(size);
    hide *;
    var p := PoolIndex(size);
    Pow2Step(p + 5);
    forall k: nat | size <= Pow2(k) && 64 <= Pow2(k)
      ensures Pow2(p + 6) <= Pow2(k)
    {
      if k < p + 6 {
        Pow2Monotone(k, p + 5);
      } else {
        Pow2Monotone(p + 6, k);
      }
    }
  }

  lemma Pow2Step(k: nat)
    ensures Pow2(k + 1) == 2 * Pow2(k)
  {
  }

  /** The chosen length holds the size, and half of it would not do. */
  lemma PoolIndexCases(size: nat)
    requires 0 < size <= MAX_SIZE
    ensures MAX_SIZE == 65536 && POOLS == 11 && PoolIndex(size) < 11
    ensures size <= Pow2(PoolIndex(size) + 6)
    ensures size <= 64 ==> PoolIndex(size) == 0
    ensures 64 < size ==> Pow2(PoolIndex(size) + 5) < size && 64 <= Pow2(PoolIndex(size) + 6)
  {
    MsbBrackets(size);
    Pow2Values();
    if 64 < size {
      IndexInRange(size);
      var m := Msb(size);
      if m == 16 {
        assert size == MAX_SIZE;
      }
      Pow2Monotone(6, PoolIndex(size) + 6);
      if size == Pow2(m) {
        Pow2Step(m - 1);
      }
    }
  }

  datatype PutOutcome = Stored(pool: nat) | Rejected | Panics

  /** `Put` by the capacity of the slice it is given. */
  function PutClass(capacity: nat): PutOutcome {
    var bits := Msb(capacity);
    if capacity == 0 || capacity > MAX_SIZE || capacity != Pow2(bits) then Rejected
    else
      var pool := (bits - 6) % UINT16;
      if pool < POOLS then Stored(pool) else Panics
  }

  lemma PutClassOfPow2(k: nat)
    requires k <= 16
    ensures PutClass(Pow2(k)) == if k < 6 then Panics else Stored(k - 6)
  {
    MsbOfPow2(k);
    PutClassByBits(Pow2(k));
    assert POOLS == 11 && UINT16 == 65536;
    hide *;
    if k < 6 {
      NegativeMod(k - 6, UINT16);
    } else {
      SmallMod(k - 6, UINT16);
    }
  }

  lemma PutClassByBits(capacity: nat)
    requires 0 < capacity <= MAX_SIZE && capacity == Pow2(Msb(capacity))
    ensures var pool := (Msb(capacity) - 6) % UINT16;
      PutClass(capacity) == if pool < POOLS then Stored(pool) else Panics
  {
  }

  /** `Put` stores exactly the capacities that `Get` hands out, panics exactly on the powers of two
      below 64, and reports an error for everything else. */
  lemma PutClassification(capacity: nat)
    ensures PutClass(capacity).Stored? <==> exists k: nat :: 6 <= k <= 16 && capacity == Pow2(k)
    ensures PutClass(capacity).Panics? <==> exists k: nat :: k < 6 && capacity == Pow2(k)
    ensures forall k: nat :: 6 <= k <= 16 && capacity == Pow2(k) ==> PutClass(capacity) == Stored(k - 6)
    ensures PutClass(capacity).Stored? ==> capacity == Pow2(PutClass(capacity).pool + 6)
  {
    forall k: nat | k <= 16 && capacity == Pow2(k)
      ensures PutClass(capacity) == if k < 6 then Panics else Stored(k - 6)
    {
      PutClassOfPow2(k);
    }
    if !PutClass(capacity).Rejected? {
      MsbBrackets(capacity);
      assert capacity == Pow2(Msb(capacity));
      PutClassOfPow2(Msb(capacity));
    }
  }

  /** What `Get` took from a pool goes back to the same pool. */
  lemma PutUndoesGet(size: nat)
    requires 0 < size <= MAX_SIZE
    ensures PutClass(Pow2(PoolIndex(size) + 6)) == Stored(PoolIndex(size))
  {
    SizeClass(size);
    PutClassification(Pow2(PoolIndex(size) + 6));
  }

  /** No array waits twice. */
  ghost predicate NoneTwice(pools: seq<multiset<array<byte>>>) {
    forall k, a :: 0 <= k < |pools| && a in pools[k] ==> pools[k][a] == 1
  }

  lemma NoneTwiceAfter(pools: seq<multiset<array<byte>>>, k: nat, a: array<byte>)
    requires k < |pools|
    ensures NoneTwice(pools[k := pools[k] + multiset{a}]) <==> NoneTwice(pools) && a !in pools[k]
  {
    var after := pools[k := pools[k] + multiset{a}];
    if NoneTwice(after) {
      assert a in after[k] && after[k][a] == pools[k][a] + 1;
      forall j, b | 0 <= j < |pools| && b in pools[j]
        ensures pools[j][b] == 1
      {
        assert b in after[j] && pools[j][b] <= after[j][b];
      }
    }
    if NoneTwice(pools) && a !in pools[k] {
      forall j, b | 0 <= j < |after| && b in after[j]
        ensures after[j][b] == 1
      {
        if j != k || b != a {
          assert after[j][b] == pools[j][b];
          assert b in pools[j];
        }
      }
    }
  }

  /** Eleven sync.Pools: bags, in which an array may be twice. A pool may lose arrays at any time, so
      `Get` may also make a new one. */
  class Allocator {
    var pools: seq<multiset<array<byte>>>

    /** Pool `k` holds arrays of 2^(k+6) bytes. */
    ghost predicate Sized()
      reads this
    {
      && |pools| == POOLS
      && forall k, a :: 0 <= k < POOLS && a in pools[k] ==> a.Length == Pow2(k + 6)
    }

    ghost predicate Once()
      reads this
    {
      NoneTwice(pools)
    }

    ghost predicate Valid()
      reads this
    {
      Sized() && Once()
    }

    /** Every array that waits in some pool. */
    ghost function Pooled(): set<array<byte>>
      reads this
    {
      set k, a | 0 <= k < |pools| && a in pools[k] :: a
    }

    constructor ()
      ensures Valid() && Pooled() == {}
    {
      pools := seq(POOLS, i => multiset{});
    }

    /** Arrays of different pools differ: their lengths do. */
    lemma PoolsDisjoint(j: nat, k: nat, a: array<byte>)
      requires Sized() && j < POOLS && k < POOLS && a in pools[j] && a in pools[k]
      ensures j == k
    {
      assert a.Length == Pow2(j + 6) && a.Length == Pow2(k + 6);
      Pow2Injective(j + 6, k + 6);
    }

    /** The backing array of `Get(size)`, or nothing for a size out of range. */
    method Get(size: int) returns (a: array?<byte>)
      requires Valid()
      modifies this
      ensures Valid()
      ensures a == null <==> size <= 0 || size > MAX_SIZE
      ensures a == null ==> Pooled() == old(Pooled())
      ensures a != null ==>
        && a.Length == Pow2(PoolIndex(size) + 6) && size <= a.Length
        && (fresh(a) || a in old(Pooled()))
        && Pooled() == old(Pooled()) - {a}
    {
      if size <= 0 || size > MAX_SIZE {
        return null;
      }
      var index := 0;
      if size > 64 {
        index := Msb(size);
        if size != Pow2(index) {
          index := index + 1;
        }
        IndexInRange(size);
        index := index - 6;
      }
      SizeClass(size);
      var hit: bool := *;
      if hit && |pools[index]| > 0 {
        a := Take(index);
      } else {
        a := new byte[Pow2(index + 6)];
        assert a !in old(Pooled());
      }
    }

    /** Get of one sync.Pool that has an array. */
    method Take(index: nat) returns (a: array<byte>)
      requires Valid() && index < POOLS && |pools[index]| > 0
      modifies this
      ensures Valid() && a in old(Pooled()) && Pooled() == old(Pooled()) - {a} && a.Length == Pow2(index + 6)
    {
      a :| a in pools[index];
      forall k | 0 <= k < POOLS && a in pools[k]
        ensures k == index
      {
        PoolsDisjoint(k, index, a);
      }
      pools := pools[index := pools[index] - multiset{a}];
      forall b | b in old(Pooled()) && b != a
        ensures b in Pooled()
      {
        var k :| 0 <= k < POOLS && b in old(pools)[k];
        assert b in pools[k];
      }
    }

    /** `Put` of the array behind a slice. An array that is pooled already is then there twice. */
    method Put(a: array<byte>) returns (outcome: PutOutcome)
      requires Sized()
      modifies this
      ensures Sized() && outcome == PutClass(a.Length)
      ensures Pooled() == old(Pooled()) + if outcome.Stored? then {a} else {}
      ensures Once() <==> old(Once()) && !(outcome.Stored? && a in old(Pooled()))
    {
      outcome := PutClass(a.Length);
      PutClassification(a.Length);
      if outcome.Stored? {
        Store(a, outcome.pool);
      }
    }

    /** Put of one sync.Pool. */
    method Store(a: array<byte>, k: nat)
      requires Sized() && k < POOLS && a.Length == Pow2(k + 6)
      modifies this
      ensures Sized() && Pooled() == old(Pooled()) + {a}
      ensures Once() <==> old(Once()) && a !in old(Pooled())
    {
      hide Pow2, NoneTwice;
      forall j | 0 <= j < POOLS && a in pools[j]
        ensures j == k
      {
        Pow2Injective(j + 6, k + 6);
      }
      NoneTwiceAfter(pools, k, a);
      pools := pools[k := pools[k] + multiset{a}];
      assert a in pools[k];
      forall b | b in old(Pooled())
        ensures b in Pooled()
      {
        var j :| 0 <= j < POOLS && b in old(pools)[j];
        assert b in pools[j];
      }
    }
  }

  lemma IndexInRange(size: nat)
    requires 64 < size <= MAX_SIZE
    ensures 6 <= Msb(size)
    ensures PoolIndex(size) == (if size != Pow2(Msb(size)) then Msb(size) + 1 else Msb(size)) - 6
  {
    MsbBrackets(size);
    Pow2Values();
    if Msb(size) < 6 { Pow2Monotone(Msb(size) + 1, 6); }
  }

  lemma Pow2Injective(a: nat, b: nat)
    requires Pow2(a) == Pow2(b)
    ensures a == b
  {
    if a < b { Pow2Monotone(a, b); } else if b < a { Pow2Monotone(b, a); }
  }
}
