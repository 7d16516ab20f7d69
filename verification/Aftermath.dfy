/**
 What a copy leaves behind: the chain it read from, the bytes that are still to come from it, and
 what the counters inside that chain were told.

 A counting reader under picked buffers is extended in place with the counters that Copy peeled from
 the outside, so whoever reads through the outside afterwards tells those counters twice.
 */
module Aftermath {
  import opened Prelude
  import opened Alloc
  import opened Peers
  import opened Buffers
  import opened Counters
  import opened Sums
  import opened Chains
  import opened Deliveries

  // ---------------------------------------------------------------- the reads of the loop

  function Times(n: nat, max: nat): seq<nat> {
    if n == 0 then [] else [max] + Times(n - 1, max)
  }

  /** The pass with this read and this reply is the last one. */
  predicate LastPass(got: seq<byte>, readErr: Option<Error>, k: nat, e: Option<Error>) {
    readErr.Some? || (got != [] && (e.Some? || k < |got|))
  }

  /** How often the loop reads before it ends. */
  function Reads(s: Shape, script: seq<WriteReply>, max: nat): nat
    requires !NilBased(s) && 0 < max
    decreases Work(s)
  {
    ReadEnds(s, max);
    var (got, readErr, rest) := ReadStep(s, max);
    var (k, e, script') := Accept(script, |got|);
    if LastPass(got, readErr, k, e) then 1
    else 1 + Reads(rest, if got == [] then script else script', max)
  }

  /** The bytes it reads, the error of the last read, and the chain afterwards. */
  function LoopRun(s: Shape, script: seq<WriteReply>, max: nat): (seq<byte>, Option<Error>, Shape)
    requires !NilBased(s) && 0 < max
  {
    ReadRun(s, Times(Reads(s, script, max), max))
  }

  /** What these reads tell a counter of the chain. */
  function LoopCharge(s: Shape, script: seq<WriteReply>, max: nat, c: CounterId): int
    requires !NilBased(s) && 0 < max
  {
    RunCharge(s, Times(Reads(s, script, max), max), c)
  }

  lemma RunOfOneMore(s: Shape, max: nat, n: nat)
    ensures var (got, err, next) := ReadStep(s, max);
      var (more, err', rest) := ReadRun(next, Times(n, max));
      && ReadRun(s, Times(n + 1, max)) == (if err.Some? then (got, err, next) else (got + more, err', rest))
      && forall c: CounterId ::
           RunCharge(s, Times(n + 1, max), c) == ReadCharge(s, max, c) + if err.Some? then 0 else RunCharge(next, Times(n, max), c)
  {
    assert Times(n + 1, max)[1..] == Times(n, max);
  }

  /** One pass. */
  lemma LoopStep(s: Shape, script: seq<WriteReply>, max: nat)
    requires !NilBased(s) && 0 < max
    ensures var (got, readErr, rest) := ReadStep(s, max);
      var (k, e, script') := Accept(script, |got|);
      var left := if got == [] then script else script';
      && !NilBased(rest)
      && (LastPass(got, readErr, k, e) ==>
           && LoopRun(s, script, max) == (got, readErr, rest)
           && forall c: CounterId :: LoopCharge(s, script, max, c) == ReadCharge(s, max, c))
      && (!LastPass(got, readErr, k, e) ==>
           && LoopRun(s, script, max) == (got + LoopRun(rest, left, max).0, LoopRun(rest, left, max).1, LoopRun(rest, left, max).2)
           && forall c: CounterId :: LoopCharge(s, script, max, c) == ReadCharge(s, max, c) + LoopCharge(rest, left, max, c))
  {
    ReadsAre(s, script, max);
    var (got, readErr, rest) := ReadStep(s, max);
    var (k, e, script') := Accept(script, |got|);
    var last, left := LastPass(got, readErr, k, e), if got == [] then script else script';
    var n := if last then 0 else Reads(rest, left, max);
    hide *;
    RunOfOneMore(s, max, n);
    RunOfNothing(rest, max);
    LoopIs(s, script, max);
    assert got + [] == got;
    if !last {
      LoopIs(rest, left, max);
      LastPassAfter(got, readErr, k, e);
    }
  }

  lemma ReadsAre(s: Shape, script: seq<WriteReply>, max: nat)
    requires !NilBased(s) && 0 < max
    ensures var (got, readErr, rest) := ReadStep(s, max);
      var (k, e, script') := Accept(script, |got|);
      && !NilBased(rest)
      && Reads(s, script, max) ==
           1 + if LastPass(got, readErr, k, e) then 0 else Reads(rest, if got == [] then script else script', max)
  {
    ReadEnds(s, max);
  }

  lemma RunOfNothing(s: Shape, max: nat)
    ensures ReadRun(s, Times(0, max)) == ([], None, s) && forall c: CounterId :: RunCharge(s, Times(0, max), c) == 0
  {
  }

  lemma LoopIs(s: Shape, script: seq<WriteReply>, max: nat)
    requires !NilBased(s) && 0 < max
    ensures LoopRun(s, script, max) == ReadRun(s, Times(Reads(s, script, max), max))
    ensures forall c: CounterId :: LoopCharge(s, script, max, c) == RunCharge(s, Times(Reads(s, script, max), max), c)
  {
  }

  lemma LastPassAfter(got: seq<byte>, readErr: Option<Error>, k: nat, e: Option<Error>)
    ensures readErr.Some? ==> LastPass(got, readErr, k, e)
  {
  }

  /** The loop read what its read counters are told; it ends with an error of the destination, or at
      the end of the stream. */
  lemma {:induction false} LoopReadsWhatItTells(s: Shape, script: seq<WriteReply>, max: nat)
    requires !NilBased(s) && 0 < max
    ensures |LoopRun(s, script, max).0| == Pump(script, Pieces(s, max)).told
    ensures Pump(script, Pieces(s, max)).err.None? ==> LoopRun(s, script, max).1.Some?
    decreases Work(s)
  {
    ReadEnds(s, max);
    LoopStep(s, script, max);
    PumpStep(script, s, max);
    var (got, readErr, rest) := ReadStep(s, max);
    var (k, e, script') := Accept(script, |got|);
    hide *;
    if !LastPass(got, readErr, k, e) {
      LoopReadsWhatItTells(rest, if got == [] then script else script', max);
    }
  }

  /** The reads take the loop's bytes off the front of the stream. */
  lemma LoopTakes(s: Shape, script: seq<WriteReply>, max: nat)
    requires !NilBased(s) && 0 < max
    ensures var (got, err, left) := LoopRun(s, script, max);
      && Took(Unread(s), got, err, Unread(left)) && !NilBased(left)
      && (err.None? ==> EndOf(left) == EndOf(s)) && (Sound(s) ==> Sound(left))
  {
    var lens := Times(Reads(s, script, max), max);
    ReadRunRefinesStream(s, lens);
    ReadRunEnds(s, lens);
    if Sound(s) {
      ReadRunStaysSound(s, lens);
    }
  }

  lemma {:induction false} ReadRunEnds(s: Shape, lens: seq<nat>)
    requires !NilBased(s)
    ensures var (got, err, rest) := ReadRun(s, lens);
      !NilBased(rest) && rest.SCounted? == s.SCounted? && (err.None? ==> EndOf(rest) == EndOf(s))
    decreases |lens|
  {
    if lens != [] {
      ReadEnds(s, lens[0]);
      ReadRunEnds(ReadStep(s, lens[0]).2, lens[1..]);
    }
  }

  // ---------------------------------------------------------------- counters around a run

  /** Reading through a counting reader is reading what it counts. */
  lemma {:induction false} CountedRun(cs: seq<CounterId>, s: Shape, lens: seq<nat>)
    ensures var (got, err, rest) := ReadRun(s, lens);
      ReadRun(SCounted(cs, s), lens) == (got, err, SCounted(cs, rest))
    decreases |lens|
  {
    if lens != [] {
      CountedRun(cs, ReadStep(s, lens[0]).2, lens[1..]);
    }
  }

  /** A chain that was extended in place, if it counts at all. */
  function Extended(s: Shape, cs: seq<CounterId>): Shape {
    if s.SCounted? then SCounted(s.counters + cs, s.inner) else s
  }

  /** Extending a counting reader adds its new counters to every run through it; reads go on as
      before. */
  lemma ExtendedRun(s: Shape, cs: seq<CounterId>, lens: seq<nat>, c: CounterId)
    ensures var (got, err, rest) := ReadRun(s, lens);
      && ReadRun(Extended(s, cs), lens) == (got, err, Extended(rest, cs)) && rest.SCounted? == s.SCounted?
      && RunCharge(Extended(s, cs), lens, c) == RunCharge(s, lens, c) + if s.SCounted? then Charge(|got|, cs, c) else 0
  {
    if s.SCounted? {
      CountedRun(s.counters, s.inner, lens);
      CountedRun(s.counters + cs, s.inner, lens);
      RunChargesDeliveredBytes(s.counters, s.inner, lens, c);
      RunChargesDeliveredBytes(s.counters + cs, s.inner, lens, c);
      ChargeConcat(|ReadRun(s.inner, lens).0|, s.counters, cs, c);
    } else {
      NotCounted(s, lens);
    }
  }

  lemma {:induction false} NotCounted(s: Shape, lens: seq<nat>)
    ensures ReadRun(s, lens).2.SCounted? == s.SCounted?
    decreases |lens|
  {
    if lens != [] {
      NotCounted(ReadStep(s, lens[0]).2, lens[1..]);
    }
  }

  /** NewReader and a run: the new counters are told every byte, what is inside is told as before. */
  lemma AddedRun(s: Shape, cs: seq<CounterId>, lens: seq<nat>, c: CounterId)
    requires !s.SNone?
    ensures var (got, err, rest) := ReadRun(s, lens);
      && ReadRun(AddCounters(s, cs), lens) ==
           (got, err, if s.SCounted? || cs == [] then Extended(rest, cs) else SCounted(cs, rest))
      && RunCharge(AddCounters(s, cs), lens, c) == RunCharge(s, lens, c) + Charge(|got|, cs, c)
  {
    ExtendedRun(s, cs, lens, c);
    if s.SCounted? {
      assert cs == [] ==> s.counters + cs == s.counters;
    } else if cs == [] {
      ChargeConcat(|ReadRun(s, lens).0|, [], [], c);
    } else {
      assert [] + cs == cs;
      CountedRun(cs, s, lens);
      RunChargesDeliveredBytes(cs, s, lens, c);
    }
  }

  lemma {:induction false} ReadsOfAdded(s: Shape, cs: seq<CounterId>, script: seq<WriteReply>, max: nat)
    requires !NilBased(s) && 0 < max
    ensures !NilBased(AddCounters(s, cs)) && Reads(AddCounters(s, cs), script, max) == Reads(s, script, max)
  {
    if s.SCounted? {
      ReadsOfCounted(s.counters, s.inner, script, max);
      ReadsOfCounted(s.counters + cs, s.inner, script, max);
    } else if cs != [] {
      assert [] + cs == cs;
      ReadsOfCounted(cs, s, script, max);
    }
  }

  lemma {:induction false} ReadsOfCounted(cs: seq<CounterId>, s: Shape, script: seq<WriteReply>, max: nat)
    requires !NilBased(s) && 0 < max
    ensures Reads(SCounted(cs, s), script, max) == Reads(s, script, max)
    decreases Work(s)
  {
    ReadEnds(s, max);
    var (got, readErr, rest) := ReadStep(s, max);
    var (k, e, script') := Accept(script, |got|);
    if !LastPass(got, readErr, k, e) {
      ReadsOfCounted(cs, rest, if got == [] then script else script', max);
    }
  }

  // ---------------------------------------------------------------- picked readers around a run

  /** Cached readers without a buffer let every read through. */
  lemma {:induction false} UnderStep(k: nat, s: Shape, max: nat, c: CounterId)
    requires !NilBased(s)
    ensures var (got, err, rest) := ReadStep(s, max);
      ReadStep(Under(k, s), max) == (got, err, Under(k, rest)) && !NilBased(Under(k, s))
    ensures ReadCharge(Under(k, s), max, c) == ReadCharge(s, max, c)
  {
    if k > 0 {
      UnderStep(k - 1, s, max, c);
      assert [] + ReadStep(s, max).0 == ReadStep(s, max).0;
    }
  }

  lemma {:induction false} UnderRun(k: nat, s: Shape, lens: seq<nat>, c: CounterId)
    requires !NilBased(s)
    ensures var (got, err, rest) := ReadRun(s, lens);
      ReadRun(Under(k, s), lens) == (got, err, Under(k, rest))
    ensures RunCharge(Under(k, s), lens, c) == RunCharge(s, lens, c)
    decreases |lens|
  {
    if lens != [] {
      UnderStep(k, s, lens[0], c);
      ReadEnds(s, lens[0]);
      UnderRun(k, ReadStep(s, lens[0]).2, lens[1..], c);
    }
  }

  lemma {:induction false} UnderIsTransparent(k: nat, s: Shape)
    ensures Unread(Under(k, s)) == Unread(s) && EndOf(Under(k, s)) == EndOf(s)
    ensures NilBased(Under(k, s)) == NilBased(s) && Sound(Under(k, s)) == Sound(s)
  {
    if k > 0 {
      UnderIsTransparent(k - 1, s);
      assert [] + Unread(s) == Unread(s);
    }
  }

  /** Counters on the outside are told every byte of a run. */
  lemma {:induction false} RewrapRun(s: Shape, base: Shape, lens: seq<nat>, c: CounterId)
    ensures var (got, err, rest) := ReadRun(base, lens);
      && ReadRun(Rewrap(s, base), lens) == (got, err, Rewrap(s, rest))
      && RunCharge(Rewrap(s, base), lens, c) == RunCharge(base, lens, c) + Charge(|got|, Unwrap(s).1, c)
  {
    if s.SCounted? {
      var (got, err, rest) := ReadRun(base, lens);
      RewrapRun(s.inner, base, lens, c);
      CountedRun(s.counters, Rewrap(s.inner, base), lens);
      RunChargesDeliveredBytes(s.counters, Rewrap(s.inner, base), lens, c);
      ChargeConcat(|got|, s.counters, Unwrap(s.inner).1, c);
    } else {
      ChargeConcat(|ReadRun(base, lens).0|, [], [], c);
    }
  }

  lemma {:induction false} RewrapIsTransparent(s: Shape, base: Shape)
    ensures Unread(Rewrap(s, base)) == Unread(base) && EndOf(Rewrap(s, base)) == EndOf(base)
    ensures NilBased(Rewrap(s, base)) == NilBased(base) && Sound(Rewrap(s, base)) == Sound(base)
    ensures !base.SCounted? ==> Unwrap(Rewrap(s, base)) == (base, Unwrap(s).1)
  {
    if s.SCounted? {
      RewrapIsTransparent(s.inner, base);
    }
  }

  // ---------------------------------------------------------------- after a copy

  /** The reader under the picked buffers. */
  function LoopBase(h: Handshake, s: Shape): (base: Shape)
    requires Sound(s) && !NilBased(s)
    ensures !NilBased(base)
  {
    ShakenKeeps(h, s);
    Peel(Shaken(h, s).0).0
  }

  /** The copy gets to its loop: neither the handshake nor the cached buffers end it. */
  predicate Through(h: Handshake, s: Shape, script: seq<WriteReply>)
    requires Sound(s) && !NilBased(s)
  {
    var fate := ShakeFate(h, s);
    !fate.HandshakeReadFailed? && !fate.Refused? && Caches(script, CachedLens(h, s)).err.None?
  }

  /** The loop of the copy. */
  function Looped(h: Handshake, s: Shape, script: seq<WriteReply>): (seq<byte>, Option<Error>, Shape)
    requires Sound(s) && !NilBased(s)
  {
    LoopRun(LoopBase(h, s), Caches(script, CachedLens(h, s)).rest, HUGE_SIZE)
  }

  /** The chain after CopyCounters with outer read counters `readers`. */
  function Left(h: Handshake, s: Shape, script: seq<WriteReply>, readers: seq<CounterId>): Shape
    requires Sound(s) && !NilBased(s)
  {
    var fate, s1 := ShakeFate(h, s), Shaken(h, s).0;
    if fate.HandshakeReadFailed? || fate.Refused? then s1
    else Under(PeelDepth(s1), if Through(h, s, script) then Extended(Looped(h, s, script).2, readers) else LoopBase(h, s))
  }

  /** What the chain itself tells a counter in the read for the handshake; in the loop; in a copy. */
  function ShakeBelow(h: Handshake, s: Shape): CounterId -> int {
    (c: CounterId) => if h.WithBuffer? then ReadCharge(s, BUFFER_SIZE, c) else 0
  }

  function LoopBelow(s: Shape, script: seq<WriteReply>, max: nat): CounterId -> int
    requires !NilBased(s) && 0 < max
  {
    (c: CounterId) => LoopCharge(s, script, max, c)
  }

  function Below(h: Handshake, s: Shape, script: seq<WriteReply>): CounterId -> int
    requires Sound(s) && !NilBased(s)
  {
    (c: CounterId) =>
      ShakeBelow(h, s)(c)
      + if Through(h, s, script) then LoopBelow(LoopBase(h, s), Caches(script, CachedLens(h, s)).rest, HUGE_SIZE)(c) else 0
  }

  lemma BelowIs(h: Handshake, s: Shape, script: seq<WriteReply>, c: CounterId)
    requires Sound(s) && !NilBased(s)
    ensures 0 < HUGE_SIZE
    ensures Below(h, s, script)(c) ==
      (if h.WithBuffer? then ReadCharge(s, BUFFER_SIZE, c) else 0)
      + if Through(h, s, script) then LoopCharge(LoopBase(h, s), Caches(script, CachedLens(h, s)).rest, HUGE_SIZE, c) else 0
  {
    hide Through, LoopBase, LoopCharge, ReadCharge, Caches, CachedLens;
    var shaken := ShakeBelow(h, s)(c);
    if Through(h, s, script) {
      var looped := LoopBelow(LoopBase(h, s), Caches(script, CachedLens(h, s)).rest, HUGE_SIZE)(c);
      assert Below(h, s, script)(c) == shaken + looped;
    }
  }

  /** How many bytes of the stream are gone after a copy, and whether its end was met. When a cached
      buffer cannot be written out, all of them are gone. */
  function Gone(h: Handshake, s: Shape, script: seq<WriteReply>): nat
    requires Sound(s) && !NilBased(s)
  {
    var fate := ShakeFate(h, s);
    if !fate.HandshakeReadFailed? && !fate.Refused? && !Through(h, s, script)
    then Shaken(h, s).1 + Sum(CachedLens(h, s))
    else Outcome(h, s, script).readTold
  }

  predicate EndMet(h: Handshake, s: Shape, script: seq<WriteReply>)
    requires Sound(s) && !NilBased(s)
  {
    ShakeFate(h, s).HandshakeReadFailed? || (Through(h, s, script) && Looped(h, s, script).1.Some?)
  }

  lemma ExtendedIsTransparent(s: Shape, cs: seq<CounterId>)
    ensures Unread(Extended(s, cs)) == Unread(s) && EndOf(Extended(s, cs)) == EndOf(s)
    ensures NilBased(Extended(s, cs)) == NilBased(s) && Sound(Extended(s, cs)) == Sound(s)
  {
  }

  lemma Suffix(all: seq<byte>, front: seq<byte>, rest: seq<byte>)
    requires all == front + rest
    ensures |front| <= |all| && all[|front|..] == rest
  {
  }

  /** The handshake takes its bytes off the front. */
  lemma ShakenTakes(h: Handshake, s: Shape)
    requires Sound(s) && !NilBased(s)
    ensures var (s1, m, k) := Shaken(h, s);
      && m <= |Unread(s)| && Sound(s1) && !NilBased(s1)
      && (ShakeFate(h, s).HandshakeReadFailed? ==> m == |Unread(s)|)
      && (!ShakeFate(h, s).HandshakeReadFailed? ==> Unread(s1) == Unread(s)[m..] && EndOf(s1) == EndOf(s))
  {
    ShakenKeeps(h, s);
    if h.WithBuffer? {
      ReadForHandshakeFacts(s);
      if ReadStep(s, BUFFER_SIZE).1.None? {
        Suffix(Unread(s), ReadStep(s, BUFFER_SIZE).0, Unread(Shaken(h, s).0));
      }
    }
  }

  /** The cached buffers are the next bytes of the stream, the loop's base has the rest. */
  lemma PeeledTakes(h: Handshake, s: Shape)
    requires Sound(s) && !NilBased(s)
    ensures var s1 := Shaken(h, s).0;
      && Sum(CachedLens(h, s)) <= |Unread(s1)|
      && Unread(LoopBase(h, s)) == Unread(s1)[Sum(CachedLens(h, s))..] && EndOf(LoopBase(h, s)) == EndOf(s1)
      && Sound(LoopBase(h, s))
  {
    ShakenKeeps(h, s);
    var (base, contents) := Peel(Shaken(h, s).0);
    LensOfFlatten(contents);
    Suffix(Unread(Shaken(h, s).0), Flatten(contents), Unread(base));
  }

  lemma DropTwice(all: seq<byte>, i: nat, j: nat)
    requires i <= |all| && j <= |all[i..]|
    ensures i + j <= |all| && all[i..][j..] == all[i + j..]
  {
  }

  /** After a copy the chain still has exactly what is behind the bytes that are gone. */
  lemma WhatIsStillToCome(h: Handshake, s: Shape, script: seq<WriteReply>, readers: seq<CounterId>)
    requires Sound(s) && !NilBased(s)
    ensures var left, gone := Left(h, s, script, readers), Gone(h, s, script);
      && gone <= |Unread(s)| && Sound(left) && !NilBased(left)
      && if EndMet(h, s, script) then gone == |Unread(s)| else Unread(left) == Unread(s)[gone..] && EndOf(left) == EndOf(s)
  {
    ShakenTakes(h, s);
    OutcomeCases(h, s, script);
    LeftCases(h, s, script, readers);
    hide *;
    var fate := ShakeFate(h, s);
    if !fate.HandshakeReadFailed? && !fate.Refused? {
      StillToComeAfterPeeling(h, s, script, readers);
    }
  }

  lemma LeftCases(h: Handshake, s: Shape, script: seq<WriteReply>, readers: seq<CounterId>)
    requires Sound(s) && !NilBased(s)
    ensures ShakeFate(h, s).HandshakeReadFailed? || ShakeFate(h, s).Refused? ==>
      && Left(h, s, script, readers) == Shaken(h, s).0 && Gone(h, s, script) == Outcome(h, s, script).readTold
      && EndMet(h, s, script) == ShakeFate(h, s).HandshakeReadFailed?
  {
    hide Caches, Pump, Looped, CachedLens, Extended;
  }

  /** When the handshake goes through. */
  lemma PeeledCases(h: Handshake, s: Shape, script: seq<WriteReply>, readers: seq<CounterId>)
    requires Sound(s) && !NilBased(s) && !ShakeFate(h, s).HandshakeReadFailed? && !ShakeFate(h, s).Refused?
    ensures var (s1, m, k) := Shaken(h, s);
      && Through(h, s, script) == Caches(script, CachedLens(h, s)).err.None?
      && Left(h, s, script, readers) ==
           Under(PeelDepth(s1), if Through(h, s, script) then Extended(Looped(h, s, script).2, readers) else LoopBase(h, s))
      && Gone(h, s, script) == (if Through(h, s, script) then Outcome(h, s, script).readTold else m + Sum(CachedLens(h, s)))
      && EndMet(h, s, script) == (Through(h, s, script) && Looped(h, s, script).1.Some?)
    ensures 0 < HUGE_SIZE && LoopPieces(h, s) == Pieces(LoopBase(h, s), HUGE_SIZE)
    ensures Looped(h, s, script) == LoopRun(LoopBase(h, s), Caches(script, CachedLens(h, s)).rest, HUGE_SIZE)
  {
    hide Caches, Pump, CachedLens, Extended, LoopRun, Outcome, Shaken;
  }

  /** What the outer read counters are told by a copy that gets to its loop. */
  lemma ReadThrough(h: Handshake, s: Shape, script: seq<WriteReply>)
    requires Sound(s) && !NilBased(s) && Through(h, s, script)
    ensures Outcome(h, s, script).readTold == Shaken(h, s).1 + Sum(CachedLens(h, s)) + |Looped(h, s, script).0|
  {
    var fate, c := ShakeFate(h, s), Caches(script, CachedLens(h, s));
    assert !fate.HandshakeReadFailed? && !fate.Refused? && c.err.None?;
    hide *;
    FatesAre(fate);
    PeeledCases(h, s, script, []);
    LoopReadsWhatItTells(LoopBase(h, s), c.rest, HUGE_SIZE);
    OutcomeCases(h, s, script);
    OutcomeParts(h, s, script);
  }

  /** Bytes off the front of the base's stream are the next ones of the whole. */
  lemma StillToCome(all: seq<byte>, gone: nat, base: seq<byte>, got: seq<byte>, err: Option<Error>, left: seq<byte>)
    requires gone <= |all| && base == all[gone..] && Took(base, got, err, left)
    ensures gone + |got| <= |all|
    ensures if err.Some? then gone + |got| == |all| else left == all[gone + |got|..]
  {
    if err.None? {
      Suffix(base, got, left);
      DropTwice(all, gone, |got|);
    }
  }

  /** The loop's base has what is behind the handshake's bytes and the cached ones. */
  lemma BaseTakes(h: Handshake, s: Shape)
    requires Sound(s) && !NilBased(s) && !ShakeFate(h, s).HandshakeReadFailed?
    ensures var front := Shaken(h, s).1 + Sum(CachedLens(h, s));
      front <= |Unread(s)| && Unread(LoopBase(h, s)) == Unread(s)[front..]
    ensures EndOf(LoopBase(h, s)) == EndOf(s) && Sound(LoopBase(h, s))
  {
    hide *;
    ShakenTakes(h, s);
    PeeledTakes(h, s);
    DropTwice(Unread(s), Shaken(h, s).1, Sum(CachedLens(h, s)));
  }

  lemma StillToComeAfterLoop(h: Handshake, s: Shape, script: seq<WriteReply>)
    requires Sound(s) && !NilBased(s) && Through(h, s, script) && !ShakeFate(h, s).HandshakeReadFailed?
    ensures var (got, err, left) := Looped(h, s, script);
      var gone := Outcome(h, s, script).readTold;
      && gone <= |Unread(s)| && Sound(left) && !NilBased(left)
      && if err.Some? then gone == |Unread(s)| else Unread(left) == Unread(s)[gone..] && EndOf(left) == EndOf(s)
  {
    var base, rest := LoopBase(h, s), Caches(script, CachedLens(h, s)).rest;
    var (got, err, left) := Looped(h, s, script);
    assert Looped(h, s, script) == LoopRun(base, rest, HUGE_SIZE);
    hide *;
    BaseTakes(h, s);
    LoopTakes(base, rest, HUGE_SIZE);
    ReadThrough(h, s, script);
    StillToCome(Unread(s), Shaken(h, s).1 + Sum(CachedLens(h, s)), Unread(base), got, err, Unread(left));
  }

  lemma StillToComeAfterPeeling(h: Handshake, s: Shape, script: seq<WriteReply>, readers: seq<CounterId>)
    requires Sound(s) && !NilBased(s) && !ShakeFate(h, s).HandshakeReadFailed? && !ShakeFate(h, s).Refused?
    ensures var left, gone := Left(h, s, script, readers), Gone(h, s, script);
      && gone <= |Unread(s)| && Sound(left) && !NilBased(left)
      && if EndMet(h, s, script) then gone == |Unread(s)| else Unread(left) == Unread(s)[gone..] && EndOf(left) == EndOf(s)
  {
    hide *;
    var k := PeelDepth(Shaken(h, s).0);
    PeeledCases(h, s, script, readers);
    if Through(h, s, script) {
      var left := Looped(h, s, script).2;
      StillToComeAfterLoop(h, s, script);
      ExtendedIsTransparent(left, readers);
      UnderIsTransparent(k, Extended(left, readers));
    } else {
      BaseTakes(h, s);
      UnderIsTransparent(k, LoopBase(h, s));
    }
  }

  lemma FatesAre(fate: Mishap)
    ensures fate.Nothing? || fate.HandshakeShort? || fate.HandshakeReadFailed? || fate.Refused?
  {
  }

  /** What a copy delivered, as parts of the stream: what the handshake consumed of the first `m`
      bytes, and what follows those. Everything delivered is gone from the chain. */
  lemma DeliveredIsGone(h: Handshake, s: Shape, script: seq<WriteReply>)
    requires Sound(s) && !NilBased(s) && !ShakeFate(h, s).HandshakeReadFailed?
    ensures var (_, m, k) := Shaken(h, s);
      var sent, gone := Outcome(h, s, script).sent, Gone(h, s, script);
      && k <= m && k <= sent && m + (sent - k) <= gone <= |Unread(s)| && sent <= |Arriving(h, s)|
      && Arriving(h, s)[..sent] == Unread(s)[..k] + Unread(s)[m..m + (sent - k)]
      && (ShakeFate(h, s).Nothing? ==> k == m && Arriving(h, s) == Unread(s))
  {
    hide *;
    var (_, m, k) := Shaken(h, s);
    WhatIsStillToCome(h, s, script, []);
    OutcomeLaw(h, s, script);
    SentIsGone(h, s, script);
    ArrivingIs(h, s);
    FatesAre(ShakeFate(h, s));
    TakeOfBoth(Arriving(h, s), Unread(s), k, m, Outcome(h, s, script).sent);
  }

  lemma SentIsGone(h: Handshake, s: Shape, script: seq<WriteReply>)
    requires Sound(s) && !NilBased(s) && !ShakeFate(h, s).HandshakeReadFailed?
    ensures var (_, m, k) := Shaken(h, s);
      var sent := Outcome(h, s, script).sent;
      && k <= m && k <= sent && m + (sent - k) <= Gone(h, s, script) && (ShakeFate(h, s).Refused? ==> sent == k)
  {
    hide *;
    var fate := ShakeFate(h, s);
    FatesAre(fate);
    ShakenFacts(h, s);
    OutcomeCases(h, s, script);
    if fate.Refused? {
      LeftCases(h, s, script, []);
    } else {
      OutcomeParts(h, s, script);
      PeeledCases(h, s, script, []);
    }
  }

  lemma ArrivingIs(h: Handshake, s: Shape)
    requires Sound(s) && !NilBased(s) && !ShakeFate(h, s).HandshakeReadFailed?
    ensures var (_, m, k) := Shaken(h, s);
      && k <= m <= |Unread(s)|
      && (ShakeFate(h, s).Nothing? ==> k == m && Arriving(h, s) == Unread(s))
      && (ShakeFate(h, s).Refused? ==> Arriving(h, s) == Unread(s))
      && (ShakeFate(h, s).HandshakeShort? ==> Arriving(h, s) == Unread(s)[..k] + Unread(s)[m..])
  {
    if h.WithBuffer? {
      ReadForHandshakeFacts(s);
      var got := ReadStep(s, BUFFER_SIZE).0;
      assert Unread(s)[..|got|] == got;
      assert h.n <= |got| ==> got[..h.n] == Unread(s)[..h.n];
    }
  }

  lemma TakeOfBoth(arriving: seq<byte>, all: seq<byte>, k: nat, m: nat, sent: nat)
    requires k <= m <= |all| && k <= sent <= |arriving|
    requires (arriving == all && (k == m || sent == k)) || arriving == all[..k] + all[m..]
    ensures m + (sent - k) <= |all| && arriving[..sent] == all[..k] + all[m..m + (sent - k)]
  {
  }

  // ---------------------------------------------------------------- counters inside the chain

  /** A counter that was nowhere in the chain is not told by it. */
  lemma BelowTellsNobodyElse(h: Handshake, s: Shape, script: seq<WriteReply>, c: CounterId)
    requires Sound(s) && !NilBased(s) && c !in Attached(s)
    ensures Below(h, s, script)(c) == 0
  {
    BelowIs(h, s, script, c);
    if h.WithBuffer? {
      AbsentIsNotCharged(s, BUFFER_SIZE, c);
    }
    PeelAttaches(Shaken(h, s).0);
    if Through(h, s, script) {
      var base, rest := LoopBase(h, s), Caches(script, CachedLens(h, s)).rest;
      RunChargesNobodyElse(base, Times(Reads(base, rest, HUGE_SIZE), HUGE_SIZE), c);
    }
  }

  /** In how many places of a chain a counter is attached. */
  function Places(s: Shape, c: CounterId): nat {
    match s
    case SNone => 0
    case SPlain(_) => 0
    case SCached(_, _, inner) => Places(inner, c)
    case SCounted(cs, inner) => Count(cs, c) + Places(inner, c)
  }

  lemma {:induction false} PlacesAfterRead(s: Shape, max: nat, c: CounterId)
    ensures Places(ReadStep(s, max).2, c) == Places(s, c)
  {
    match s
    case SNone =>
    case SPlain(_) =>
    case SCounted(_, inner) => PlacesAfterRead(inner, max, c);
    case SCached(_, bytes, inner) =>
      if !((bytes != [] && max <= |bytes|) || inner.SNone?) {
        PlacesAfterRead(inner, max - |bytes|, c);
      }
  }

  lemma {:induction false} PlacesAfterRun(s: Shape, lens: seq<nat>, c: CounterId)
    ensures Places(ReadRun(s, lens).2, c) == Places(s, c)
    decreases |lens|
  {
    if lens != [] {
      PlacesAfterRead(s, lens[0], c);
      PlacesAfterRun(ReadStep(s, lens[0]).2, lens[1..], c);
    }
  }

  lemma {:induction false} PlacesUnder(k: nat, s: Shape, c: CounterId)
    ensures Places(Under(k, s), c) == Places(s, c)
  {
    if k > 0 {
      PlacesUnder(k - 1, s, c);
    }
  }

  lemma {:induction false} PlacesAfterPeeling(s: Shape, c: CounterId)
    ensures Places(Peel(s).0, c) == Places(s, c)
  {
    if s.SCached? && !s.taken {
      PlacesAfterPeeling(s.inner, c);
    }
  }

  lemma {:induction false} PlacesAround(s: Shape, base: Shape, c: CounterId)
    ensures Places(Rewrap(s, base), c) == Count(Unwrap(s).1, c) + Places(base, c)
    ensures Rewrap(s, Unwrap(s).0) == s
  {
    if s.SCounted? {
      PlacesAround(s.inner, base, c);
      ChargeConcat(1, s.counters, Unwrap(s.inner).1, c);
    }
  }

  lemma PlacesExtended(s: Shape, cs: seq<CounterId>, c: CounterId)
    ensures Places(Extended(s, cs), c) == Places(s, c) + if s.SCounted? then Count(cs, c) else 0
  {
    ChargeConcat(1, if s.SCounted? then s.counters else [], cs, c);
  }

  /** The whole chain after Copy. */
  function AfterCopy(h: Handshake, s: Shape, script: seq<WriteReply>): Shape
    requires Sound(Unwrap(s).0) && !NilBased(Unwrap(s).0)
  {
    Rewrap(s, Left(h, Unwrap(s).0, script, Unwrap(s).1))
  }

  /** Copy extends a reader inside the chain: it gets to its loop, there are counters on the outside,
      and the reader under the picked buffers counts. */
  predicate ExtendsInside(h: Handshake, s: Shape, script: seq<WriteReply>)
    requires Sound(Unwrap(s).0) && !NilBased(Unwrap(s).0)
  {
    var (base, readers) := Unwrap(s);
    Through(h, base, script) && readers != [] && LoopBase(h, base).SCounted?
  }

  lemma PlacesLeft(h: Handshake, s: Shape, script: seq<WriteReply>, readers: seq<CounterId>, c: CounterId)
    requires Sound(s) && !NilBased(s)
    ensures Places(Left(h, s, script, readers), c) ==
      Places(s, c) + if Through(h, s, script) && LoopBase(h, s).SCounted? then Count(readers, c) else 0
  {
    var s1, base := Shaken(h, s).0, LoopBase(h, s);
    PlacesAfterRead(s, BUFFER_SIZE, c);
    PlacesAfterPeeling(s1, c);
    if Through(h, s, script) {
      var rest := Caches(script, CachedLens(h, s)).rest;
      var lens := Times(Reads(base, rest, HUGE_SIZE), HUGE_SIZE);
      PlacesAfterRun(base, lens, c);
      NotCounted(base, lens);
      PlacesExtended(Looped(h, s, script).2, readers, c);
      PlacesUnder(PeelDepth(s1), Extended(Looped(h, s, script).2, readers), c);
    } else {
      PlacesUnder(PeelDepth(s1), base, c);
    }
  }

  ghost predicate SamePlaces(s: Shape, t: Shape) { forall c: CounterId :: Places(t, c) == Places(s, c) }

  /** After Copy every counter is attached as often as before, exactly when Copy does not extend a
      reader inside; otherwise each counter of the outside is once more, for each place it has there. */
  lemma OuterCountersStayExactlyWhen(h: Handshake, s: Shape, script: seq<WriteReply>)
    requires Sound(Unwrap(s).0) && !NilBased(Unwrap(s).0)
    ensures SamePlaces(s, AfterCopy(h, s, script)) <==> !ExtendsInside(h, s, script)
    ensures forall c: CounterId ::
      Places(AfterCopy(h, s, script), c) == Places(s, c) + if ExtendsInside(h, s, script) then Count(Unwrap(s).1, c) else 0
  {
    var (base, readers) := Unwrap(s);
    forall c: CounterId
      ensures Places(AfterCopy(h, s, script), c) ==
        Places(s, c) + if ExtendsInside(h, s, script) then Count(readers, c) else 0
    {
      PlacesLeft(h, base, script, readers, c);
      PlacesAround(s, base, c);
      PlacesAround(s, Left(h, base, script, readers), c);
    }
    if ExtendsInside(h, s, script) {
      var c := readers[0];
      assert Count(readers, c) > 0;
      assert Places(AfterCopy(h, s, script), c) != Places(s, c);
    }
  }

  // ---------------------------------------------------------------- reading on

  /** Whatever is read through the outside after a copy: the bytes are those of the reader that the
      loop read from. Each counter of the outside is told every byte once for each place it has there,
      and twice if Copy extended that reader. */
  lemma LaterReadsTell(h: Handshake, s: Shape, script: seq<WriteReply>, lens: seq<nat>, c: CounterId)
    requires Sound(Unwrap(s).0) && !NilBased(Unwrap(s).0) && Through(h, Unwrap(s).0, script)
    ensures var inside, after := Looped(h, Unwrap(s).0, script).2, AfterCopy(h, s, script);
      var n := |ReadRun(inside, lens).0|;
      && ReadRun(after, lens).0 == ReadRun(inside, lens).0 && ReadRun(after, lens).1 == ReadRun(inside, lens).1
      && RunCharge(after, lens, c) ==
           RunCharge(inside, lens, c) + Charge(n, Unwrap(s).1, c)
           + (if ExtendsInside(h, s, script) then Charge(n, Unwrap(s).1, c) else 0)
  {
    var (base, readers) := Unwrap(s);
    var inside := Looped(h, base, script).2;
    AfterThrough(h, s, script);
    hide *;
    var k := PeelDepth(Shaken(h, base).0);
    ExtendedRun(inside, readers, lens, c);
    UnderRun(k, Extended(inside, readers), lens, c);
    RewrapRun(s, Under(k, Extended(inside, readers)), lens, c);
    ChargeConcat(|ReadRun(inside, lens).0|, [], [], c);
  }

  lemma AfterThrough(h: Handshake, s: Shape, script: seq<WriteReply>)
    requires Sound(Unwrap(s).0) && !NilBased(Unwrap(s).0) && Through(h, Unwrap(s).0, script)
    ensures var (base, readers) := Unwrap(s);
      var inside := Looped(h, base, script).2;
      && Left(h, base, script, readers) == Under(PeelDepth(Shaken(h, base).0), Extended(inside, readers))
      && AfterCopy(h, s, script) == Rewrap(s, Left(h, base, script, readers))
      && !NilBased(Extended(inside, readers)) && inside.SCounted? == LoopBase(h, base).SCounted?
      && ExtendsInside(h, s, script) == (readers != [] && inside.SCounted?)
      && (PeelDepth(Shaken(h, base).0) == 0 ==> !inside.SCached?)
  {
    var (base, readers) := Unwrap(s);
    LoopTakes(LoopBase(h, base), Caches(script, CachedLens(h, base)).rest, HUGE_SIZE);
    NotCounted(LoopBase(h, base), Times(Reads(LoopBase(h, base), Caches(script, CachedLens(h, base)).rest, HUGE_SIZE), HUGE_SIZE));
    NotCached(LoopBase(h, base), Times(Reads(LoopBase(h, base), Caches(script, CachedLens(h, base)).rest, HUGE_SIZE), HUGE_SIZE));
  }

  lemma {:induction false} NotCached(s: Shape, lens: seq<nat>)
    ensures ReadRun(s, lens).2.SCached? == s.SCached?
    decreases |lens|
  {
    if lens != [] {
      NotCached(ReadStep(s, lens[0]).2, lens[1..]);
    }
  }

  lemma {:induction false} ReadsUnder(k: nat, s: Shape, script: seq<WriteReply>, max: nat)
    requires !NilBased(s) && 0 < max
    ensures !NilBased(Under(k, s)) && Reads(Under(k, s), script, max) == Reads(s, script, max)
    decreases Work(s)
  {
    UnderStep(k, s, max, 0);
    ReadEnds(s, max);
    var (got, readErr, rest) := ReadStep(s, max);
    var (e, err, script') := Accept(script, |got|);
    if !LastPass(got, readErr, e, err) {
      ReadsUnder(k, rest, if got == [] then script else script', max);
    }
  }

  lemma ReadsOfExtended(s: Shape, cs: seq<CounterId>, script: seq<WriteReply>, max: nat)
    requires !NilBased(s) && 0 < max
    ensures !NilBased(Extended(s, cs)) && Reads(Extended(s, cs), script, max) == Reads(s, script, max)
  {
    if s.SCounted? {
      ReadsOfCounted(s.counters, s.inner, script, max);
      ReadsOfCounted(s.counters + cs, s.inner, script, max);
    }
  }

  /** Peeling a chain that was peeled before finds no buffers. */
  lemma PeelAgain(k: nat, s: Shape)
    requires k == 0 ==> !s.SCached?
    ensures Peel(Under(k, s)) == (Under(if k == 0 then 0 else k - 1, s), [])
  {
  }

  /** A second copy of the same source, without a handshake, gets to its loop at once. The chain tells
      each counter what it would have told it without the first copy's counters; and those as many
      bytes as the second copy reads, if the first one extended a reader inside. */
  lemma SecondCopyTells(h: Handshake, s: Shape, script: seq<WriteReply>, again: seq<WriteReply>, c: CounterId)
    requires Sound(Unwrap(s).0) && !NilBased(Unwrap(s).0) && Through(h, Unwrap(s).0, script)
    ensures var (base, readers) := Unwrap(s);
      var inside, left := Looped(h, base, script).2, Left(h, base, script, readers);
      && Sound(left) && !NilBased(left) && !NilBased(inside) && Through(NotNeeded, left, again)
      && Below(NotNeeded, left, again)(c) ==
           LoopCharge(inside, again, HUGE_SIZE, c)
           + (if ExtendsInside(h, s, script) then Charge(Outcome(NotNeeded, left, again).readTold, readers, c) else 0)
      && Outcome(NotNeeded, left, again).readTold == |LoopRun(inside, again, HUGE_SIZE).0|
  {
    var (base, readers) := Unwrap(s);
    var inside, left := Looped(h, base, script).2, Left(h, base, script, readers);
    var k := PeelDepth(Shaken(h, base).0);
    AfterThrough(h, s, script);
    WhatIsStillToCome(h, base, script, readers);
    SecondLoop(k, inside, readers, again, c);
    ChargeConcat(|LoopRun(inside, again, HUGE_SIZE).0|, [], [], c);
  }

  lemma SecondLoop(k: nat, inside: Shape, readers: seq<CounterId>, again: seq<WriteReply>, c: CounterId)
    requires !NilBased(inside) && (k == 0 ==> !inside.SCached?)
    requires Sound(Under(k, Extended(inside, readers))) && !NilBased(Under(k, Extended(inside, readers)))
    ensures var left := Under(k, Extended(inside, readers));
      && Through(NotNeeded, left, again)
      && Below(NotNeeded, left, again)(c) ==
           LoopCharge(inside, again, HUGE_SIZE, c)
           + (if inside.SCounted? then Charge(|LoopRun(inside, again, HUGE_SIZE).0|, readers, c) else 0)
      && Outcome(NotNeeded, left, again).readTold == |LoopRun(inside, again, HUGE_SIZE).0|
  {
    var left, j := Under(k, Extended(inside, readers)), if k == 0 then 0 else k - 1;
    PeelAgain(k, Extended(inside, readers));
    ReadsOfExtended(inside, readers, again, HUGE_SIZE);
    ReadsUnder(j, Extended(inside, readers), again, HUGE_SIZE);
    var lens := Times(Reads(inside, again, HUGE_SIZE), HUGE_SIZE);
    ExtendedRun(inside, readers, lens, c);
    UnderRun(j, Extended(inside, readers), lens, c);
    SecondCases(left, Under(j, Extended(inside, readers)), again);
    LoopReadsWhatItTells(Under(j, Extended(inside, readers)), again, HUGE_SIZE);
  }

  /** A copy without a handshake from a chain without cached bytes is its loop. */
  lemma SecondCases(left: Shape, base: Shape, again: seq<WriteReply>)
    requires Sound(left) && !NilBased(left) && Peel(left) == (base, [])
    ensures Through(NotNeeded, left, again) && LoopBase(NotNeeded, left) == base && !NilBased(base)
    ensures forall c: CounterId :: Below(NotNeeded, left, again)(c) == LoopCharge(base, again, HUGE_SIZE, c)
    ensures Outcome(NotNeeded, left, again).readTold == Pump(again, Pieces(base, HUGE_SIZE)).told
  {
    hide Pump, Pieces, LoopCharge, ReadCharge, ReadStep;
    assert LoopBase(NotNeeded, left) == base && !NilBased(base);
    assert CachedLens(NotNeeded, left) == [];
    assert Caches(again, []) == Delivery(0, None, 0, again);
    forall c: CounterId
      ensures Below(NotNeeded, left, again)(c) == LoopCharge(base, again, HUGE_SIZE, c)
    {
      BelowIs(NotNeeded, left, again, c);
    }
    OutcomeCases(NotNeeded, left, again);
  }
}
