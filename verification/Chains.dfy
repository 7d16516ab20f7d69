/**
 Readers as the package builds them: a source, cached bytes in front of a reader, a counter around
 a reader.

 The links between readers never change after construction, so a chain is a value; what changes is
 kept in cells: whether a cached reader still has its buffer, which counters a counting reader has.
 `Shape` is the state of a chain; each operation on chains is proved against a function on shapes,
 and what it promises is proved about that function.
 */
module Chains {
  import opened Prelude
  import opened Alloc
  import opened Peers
  import opened Buffers
  import opened Counters

  // ---------------------------------------------------------------- shapes

  datatype Shape =
    | SNone                                                    // a nil interface
    | SPlain(script: seq<Reply>)
    | SCached(taken: bool, bytes: seq<byte>, inner: Shape)     // `taken`: its buffer was picked
    | SCounted(counters: seq<CounterId>, inner: Shape)

  /** One `Read` of at most `max` bytes: the bytes, the error, and the shape afterwards. A cached
      reader over nothing forgets the bytes it has just copied out. */
  function ReadStep(s: Shape, max: nat): (seq<byte>, Option<Error>, Shape) {
    match s
    case SNone => ([], Some(EOF), SNone)
    case SPlain(script) =>
      var (got, err, rest) := Serve(script, max);
      (got, err, SPlain(rest))
    case SCounted(cs, inner) =>
      var (got, err, rest) := ReadStep(inner, max);
      (got, err, SCounted(cs, rest))
    case SCached(taken, bytes, inner) =>
      if bytes != [] && max <= |bytes| then (bytes[..max], None, SCached(taken, bytes[max..], inner))
      else if inner.SNone? then ([], Some(EOF), SCached(taken, [], inner))
      else
        var (got, err, rest) := ReadStep(inner, max - |bytes|);
        (bytes + got, err, SCached(taken, [], rest))
  }

  /** What one `Read` adds to the total of counter `c`. */
  function ReadCharge(s: Shape, max: nat, c: CounterId): int {
    match s
    case SNone => 0
    case SPlain(_) => 0
    case SCounted(cs, inner) => ReadCharge(inner, max, c) + Charge(|ReadStep(inner, max).0|, cs, c)
    case SCached(_, bytes, inner) =>
      if (bytes != [] && max <= |bytes|) || inner.SNone? then 0 else ReadCharge(inner, max - |bytes|, c)
  }

  /** The flat stream behind a chain: cached bytes in order, then the source's. */
  function Unread(s: Shape): seq<byte> {
    match s
    case SNone => []
    case SPlain(script) => Stream(script)
    case SCached(_, bytes, inner) => bytes + Unread(inner)
    case SCounted(_, inner) => Unread(inner)
  }

  /** The error that ends that stream. */
  function EndOf(s: Shape): Error {
    match s
    case SNone => EOF
    case SPlain(script) => End(script)
    case SCached(_, _, inner) => EndOf(inner)
    case SCounted(_, inner) => EndOf(inner)
  }

  /** A bound on the non-empty reads until it ends. */
  function Work(s: Shape): nat {
    match s
    case SNone => 0
    case SPlain(script) => Fuel(script)
    case SCached(_, bytes, inner) => |bytes| + Work(inner)
    case SCounted(_, inner) => Work(inner)
  }

  /** A read took its bytes off the front of a flat stream, and an error means the end of it. */
  predicate Took(before: seq<byte>, got: seq<byte>, err: Option<Error>, after: seq<byte>) {
    before == if err.None? then got + after else got
  }

  /** This read loses bytes: a cached reader with nothing under it is asked for more than it has. */
  predicate Drops(s: Shape, max: nat) {
    match s
    case SNone => false
    case SPlain(_) => false
    case SCounted(_, inner) => Drops(inner, max)
    case SCached(_, bytes, inner) =>
      if bytes != [] && max <= |bytes| then false
      else if inner.SNone? then bytes != []
      else Drops(inner, max - |bytes|)
  }

  predicate NilBased(s: Shape) {
    match s
    case SNone => true
    case SPlain(_) => false
    case SCached(_, _, inner) => NilBased(inner)
    case SCounted(_, inner) => NilBased(inner)
  }

  lemma SamePrefix(a: seq<byte>, b: seq<byte>, c: seq<byte>)
    ensures a + b == a + c <==> b == c
  {
    if a + b == a + c {
      assert b == (a + b)[|a|..] && c == (a + c)[|a|..];
    }
  }

  /** Reading through cached bytes takes from the joined stream what it takes from its parts. */
  lemma TookThrough(c0: seq<byte>, u0: seq<byte>, rest: seq<byte>, err: Option<Error>, u1: seq<byte>)
    ensures Took(c0 + u0, c0 + rest, err, u1) <==> Took(u0, rest, err, u1)
  {
    if err.None? {
      ConcatAssoc(c0, rest, u1);
      SamePrefix(c0, u0, rest + u1);
    } else {
      SamePrefix(c0, u0, rest);
    }
  }

  /** A read on a chain is a read on its flat stream, exactly unless it drops bytes. */
  lemma {:induction false} ReadRefinesStream(s: Shape, max: nat)
    ensures var (got, err, rest) := ReadStep(s, max);
      && |got| <= max
      && (Took(Unread(s), got, err, Unread(rest)) <==> !Drops(s, max))
  {
    match s
    case SNone =>
    case SPlain(script) => ServeLaw(script, max);
    case SCounted(_, inner) => ReadRefinesStream(inner, max);
    case SCached(_, bytes, inner) =>
      if bytes != [] && max <= |bytes| {
        assert bytes == bytes[..max] + bytes[max..];
        ConcatAssoc(bytes[..max], bytes[max..], Unread(inner));
      } else if !inner.SNone? {
        var (got, err, rest) := ReadStep(inner, max - |bytes|);
        ReadRefinesStream(inner, max - |bytes|);
        TookThrough(bytes, Unread(inner), got, err, Unread(rest));
        assert Unread(ReadStep(s, max).2) == Unread(rest);
      }
  }

  /** Only a chain over nothing can drop bytes. */
  lemma {:induction false} NeverDrops(s: Shape, max: nat)
    requires !NilBased(s)
    ensures !Drops(s, max)
  {
    match s
    case SPlain(_) =>
    case SCounted(_, inner) => NeverDrops(inner, max);
    case SCached(_, bytes, inner) =>
      if !(bytes != [] && max <= |bytes|) {
        NeverDrops(inner, max - |bytes|);
      }
  }

  /** The failing case: two cached bytes over nothing, read with room for three. */
  lemma NilUnderlayDropsBytes(a: byte, b: byte)
    ensures ReadStep(SCached(false, [a, b], SNone), 3) == ([], Some(EOF), SCached(false, [], SNone))
    ensures Unread(SCached(false, [a, b], SNone)) == [a, b]
  {
    assert [a, b] + Unread(SNone) == [a, b];
  }

  lemma {:induction false} ReadEnds(s: Shape, max: nat)
    ensures var (got, err, rest) := ReadStep(s, max);
      && NilBased(rest) == NilBased(s) && rest.SNone? == s.SNone?
      && Work(rest) <= Work(s)
      && (!NilBased(s) ==>
           if err.None? then EndOf(rest) == EndOf(s) && (0 < max ==> Work(rest) < Work(s))
           else err.value == EndOf(s))
  {
    match s
    case SNone =>
    case SPlain(script) => ServeLaw(script, max);
    case SCounted(_, inner) => ReadEnds(inner, max);
    case SCached(_, bytes, inner) =>
      if !(bytes != [] && max <= |bytes|) && !inner.SNone? {
        ReadEnds(inner, max - |bytes|);
      }
  }

  // ---------------------------------------------------------------- runs of reads

  /** The bytes of a run of reads of the given lengths, up to the first error. */
  function ReadRun(s: Shape, lens: seq<nat>): (seq<byte>, Option<Error>, Shape)
    decreases |lens|
  {
    if lens == [] then ([], None, s)
    else
      var (got, err, next) := ReadStep(s, lens[0]);
      if err.Some? then (got, err, next)
      else
        var (more, err', rest) := ReadRun(next, lens[1..]);
        (got + more, err', rest)
  }

  /** Any reads of any lengths deliver the flat stream from its front, without loss or repetition,
      and the first error comes exactly at its end. */
  lemma {:induction false} ReadRunRefinesStream(s: Shape, lens: seq<nat>)
    requires !NilBased(s)
    ensures var (got, err, rest) := ReadRun(s, lens);
      Took(Unread(s), got, err, Unread(rest)) && (err.Some? ==> err.value == EndOf(s))
    decreases |lens|
  {
    if lens == [] {
      assert [] + Unread(s) == Unread(s);
    } else {
      var (got, err, next) := ReadStep(s, lens[0]);
      ReadRefinesStream(s, lens[0]);
      NeverDrops(s, lens[0]);
      ReadEnds(s, lens[0]);
      if err.None? {
        var (more, err', rest) := ReadRun(next, lens[1..]);
        ReadRunRefinesStream(next, lens[1..]);
        ConcatAssoc(got, more, Unread(rest));
      }
    }
  }

  // ---------------------------------------------------------------- building and peeling

  /** NewCacheReaderList over the contents of its buffers. */
  function Build(s: Shape, contents: seq<seq<byte>>): Shape {
    if contents == [] then s
    else if contents[0] == [] then Build(s, contents[1..])
    else SCached(false, contents[0], Build(s, contents[1..]))
  }

  lemma BuildAt(s: Shape, contents: seq<seq<byte>>, i: nat)
    requires i < |contents|
    ensures Build(s, contents[i..]) ==
      var rest := Build(s, contents[i + 1..]);
      if contents[i] == [] then rest else SCached(false, contents[i], rest)
  {
    assert contents[i..][1..] == contents[i + 1..];
  }

  function NonEmpty(contents: seq<seq<byte>>): seq<seq<byte>> {
    if contents == [] then []
    else (if contents[0] == [] then [] else [contents[0]]) + NonEmpty(contents[1..])
  }

  function Flatten(contents: seq<seq<byte>>): seq<byte> {
    if contents == [] then [] else contents[0] + Flatten(contents[1..])
  }

  /** PickReaderCacheList: the shape that is left and the contents of the picked buffers. A reader
      whose own buffer was picked before ends the walk, one link further down. */
  function Peel(s: Shape): (Shape, seq<seq<byte>>) {
    if !s.SCached? then (s, [])
    else if s.taken then (s.inner, [])
    else
      var (base, contents) := Peel(s.inner);
      (base, (if s.bytes == [] then [] else [s.bytes]) + contents)
  }

  lemma {:induction false} PeelOnward(s: Shape, picked: seq<seq<byte>>)
    requires s.SCached? && !s.taken
    ensures var more := if s.bytes == [] then [] else [s.bytes];
      && Peel(s).0 == Peel(s.inner).0
      && picked + Peel(s).1 == (picked + more) + Peel(s.inner).1
  {
  }

  /** The reader `k` links down, and what is cached above it. */
  function Link(s: Shape, k: nat): Shape {
    if k == 0 || !s.SCached? then s else Link(s.inner, k - 1)
  }

  function CachedAbove(s: Shape, k: nat): seq<seq<byte>> {
    if k == 0 || !s.SCached? then [] else [s.bytes] + CachedAbove(s.inner, k - 1)
  }

  /** Picking goes down to the first reader that does not cache, past empty buffers, or to the reader under
      the first one whose buffer was picked before. */
  lemma {:induction false} PeelAt(s: Shape, k: nat)
    requires forall i :: 0 <= i < k ==> Link(s, i).SCached? && !Link(s, i).taken
    ensures !Link(s, k).SCached? ==> Peel(s) == (Link(s, k), NonEmpty(CachedAbove(s, k)))
    ensures Link(s, k).SCached? && Link(s, k).taken ==> Peel(s) == (Link(s, k).inner, NonEmpty(CachedAbove(s, k)))
  {
    if k > 0 {
      assert Link(s, 0) == s;
      forall i | 0 <= i < k - 1
        ensures Link(s.inner, i).SCached? && !Link(s.inner, i).taken
      {
        assert Link(s, i + 1) == Link(s.inner, i);
      }
      PeelAt(s.inner, k - 1);
      assert CachedAbove(s, k)[1..] == CachedAbove(s.inner, k - 1);
    }
  }

  /** A taken reader has no bytes of its own. */
  predicate Sound(s: Shape) {
    match s
    case SNone => true
    case SPlain(_) => true
    case SCached(taken, bytes, inner) => (taken ==> bytes == []) && Sound(inner)
    case SCounted(_, inner) => Sound(inner)
  }

  /** Peeling undoes building: the base reader comes back with the non-empty buffers in order. */
  lemma {:induction false} PeelUndoesBuild(s: Shape, contents: seq<seq<byte>>)
    requires !s.SCached?
    ensures Peel(Build(s, contents)) == (s, NonEmpty(contents))
  {
    if contents != [] {
      PeelUndoesBuild(s, contents[1..]);
      assert [] + NonEmpty(contents[1..]) == NonEmpty(contents[1..]);
    }
  }

  /** A built list reads as the buffers in order, then the base. */
  lemma {:induction false} BuildPrepends(s: Shape, contents: seq<seq<byte>>)
    ensures Unread(Build(s, contents)) == Flatten(contents) + Unread(s)
  {
    if contents == [] {
      assert [] + Unread(s) == Unread(s);
    } else {
      BuildPrepends(s, contents[1..]);
      ConcatAssoc(contents[0], Flatten(contents[1..]), Unread(s));
    }
  }

  /** After any reading, what peeling returns is exactly what was still unread. */
  lemma {:induction false} PeelKeepsUnread(s: Shape)
    requires Sound(s)
    ensures var (base, contents) := Peel(s);
      && Unread(s) == Flatten(contents) + Unread(base)
      && EndOf(base) == EndOf(s) && NilBased(base) == NilBased(s) && Work(base) <= Work(s) && Sound(base)
      && (forall i :: 0 <= i < |contents| ==> contents[i] != [])
  {
    if s.SCached? && !s.taken {
      var (base, contents) := Peel(s.inner);
      PeelKeepsUnread(s.inner);
      if s.bytes != [] {
        assert ([s.bytes] + contents)[1..] == contents;
        ConcatAssoc(s.bytes, Flatten(contents), Unread(base));
      } else {
        assert [] + contents == contents;
        assert s.bytes + Unread(s.inner) == Unread(s.inner);
      }
    } else {
      var base := Peel(s).0;
      assert Flatten([]) + Unread(base) == Unread(base);
      if s.SCached? {
        assert s.bytes + Unread(s.inner) == Unread(s.inner);
      }
    }
  }

  lemma {:induction false} ReadStaysSound(s: Shape, max: nat)
    requires Sound(s)
    ensures Sound(ReadStep(s, max).2)
  {
    match s
    case SNone =>
    case SPlain(_) =>
    case SCounted(_, inner) => ReadStaysSound(inner, max);
    case SCached(_, bytes, inner) =>
      if !(bytes != [] && max <= |bytes|) && !inner.SNone? {
        ReadStaysSound(inner, max - |bytes|);
      }
  }

  /** The two together: read any way you like, then peel; delivered bytes, picked bytes and the
      rest of the returned reader make up the buffers and the base stream. */
  lemma BuildReadPeel(s: Shape, contents: seq<seq<byte>>, lens: seq<nat>)
    requires Sound(s) && !NilBased(s)
    ensures var (got, err, rest) := ReadRun(Build(s, contents), lens);
      var (base, picked) := Peel(rest);
      err.None? ==> Flatten(contents) + Unread(s) == got + (Flatten(picked) + Unread(base))
  {
    BuildStaysSound(s, contents);
    BuildPrepends(s, contents);
    ReadRunRefinesStream(Build(s, contents), lens);
    ReadRunStaysSound(Build(s, contents), lens);
    PeelKeepsUnread(ReadRun(Build(s, contents), lens).2);
  }

  lemma {:induction false} BuildStaysSound(s: Shape, contents: seq<seq<byte>>)
    requires Sound(s)
    ensures Sound(Build(s, contents)) && NilBased(Build(s, contents)) == NilBased(s)
  {
    if contents != [] {
      BuildStaysSound(s, contents[1..]);
    }
  }

  lemma {:induction false} ReadRunStaysSound(s: Shape, lens: seq<nat>)
    requires Sound(s)
    ensures Sound(ReadRun(s, lens).2)
    decreases |lens|
  {
    if lens != [] {
      ReadStaysSound(s, lens[0]);
      ReadRunStaysSound(ReadStep(s, lens[0]).2, lens[1..]);
    }
  }

  // ---------------------------------------------------------------- counting

  /** UnwrapReadCounter: the first reader that does not count, and the counters met on the way. */
  function Unwrap(s: Shape): (Shape, seq<CounterId>) {
    if !s.SCounted? then (s, [])
    else
      var (base, cs) := Unwrap(s.inner);
      (base, s.counters + cs)
  }

  /** No counting reader directly wraps another. */
  predicate Flat(s: Shape) {
    match s
    case SNone => true
    case SPlain(_) => true
    case SCached(_, _, inner) => Flat(inner)
    case SCounted(_, inner) => !inner.SCounted? && Flat(inner)
  }

  /** NewReader(s, cs). */
  function AddCounters(s: Shape, cs: seq<CounterId>): Shape {
    if s.SNone? || cs == [] then s
    else if s.SCounted? then SCounted(s.counters + cs, s.inner)
    else
      var (base, extra) := Unwrap(s);
      SCounted(extra + cs, base)
  }

  /** Counting a reader never stacks counters, and unwrapping gives back the base with the old
      counters first. */
  lemma CountThenUnwrap(s: Shape, cs: seq<CounterId>)
    requires Flat(s) && !s.SNone?
    ensures Flat(AddCounters(s, cs))
    ensures Unwrap(AddCounters(s, cs)) == (Unwrap(s).0, Unwrap(s).1 + cs)
    ensures !Unwrap(s).0.SCounted?
  {
    if cs == [] {
      assert Unwrap(s).1 + [] == Unwrap(s).1;
    } else if s.SCounted? {
      assert Unwrap(s.inner) == (s.inner, []);
      assert s.counters + [] == s.counters && (s.counters + cs) + [] == s.counters + cs;
    } else {
      assert [] + cs == cs && cs + [] == cs;
    }
  }

  /** Counting changes nothing that a reader sees. */
  lemma CountIsTransparent(s: Shape, cs: seq<CounterId>)
    ensures Unread(AddCounters(s, cs)) == Unread(s) && EndOf(AddCounters(s, cs)) == EndOf(s)
    ensures Work(AddCounters(s, cs)) == Work(s) && NilBased(AddCounters(s, cs)) == NilBased(s)
    ensures Sound(AddCounters(s, cs)) == Sound(s)
  {
  }

  lemma {:induction false} UnwrapIsTransparent(s: Shape)
    ensures var base := Unwrap(s).0;
      && Unread(base) == Unread(s) && EndOf(base) == EndOf(s) && Work(base) == Work(s)
      && NilBased(base) == NilBased(s) && Sound(base) == Sound(s) && !base.SCounted?
      && (Flat(s) ==> Flat(base))
  {
    if s.SCounted? {
      UnwrapIsTransparent(s.inner);
    }
  }

  /** What a run of reads adds to the total of counter `c`. */
  function RunCharge(s: Shape, lens: seq<nat>, c: CounterId): int
    decreases |lens|
  {
    if lens == [] then 0
    else
      var (got, err, next) := ReadStep(s, lens[0]);
      ReadCharge(s, lens[0], c) + if err.Some? then 0 else RunCharge(next, lens[1..], c)
  }

  /** The counters attached anywhere in a chain. */
  function Attached(s: Shape): set<CounterId> {
    match s
    case SNone => {}
    case SPlain(_) => {}
    case SCached(_, _, inner) => Attached(inner)
    case SCounted(cs, inner) => (set c | c in cs) + Attached(inner)
  }

  /** What is left after peeling has no counters that were not there before. */
  lemma {:induction false} PeelAttaches(s: Shape)
    ensures Attached(Peel(s).0) <= Attached(s)
  {
    if s.SCached? && !s.taken {
      PeelAttaches(s.inner);
    }
  }

  lemma {:induction false} AbsentIsNotCharged(s: Shape, max: nat, c: CounterId)
    requires c !in Attached(s)
    ensures ReadCharge(s, max, c) == 0 && c !in Attached(ReadStep(s, max).2)
  {
    match s
    case SNone =>
    case SPlain(_) =>
    case SCounted(cs, inner) =>
      AbsentIsNotCharged(inner, max, c);
      ChargeConcat(|ReadStep(inner, max).0|, cs, [], c);
    case SCached(_, bytes, inner) =>
      if !((bytes != [] && max <= |bytes|) || inner.SNone?) {
        AbsentIsNotCharged(inner, max - |bytes|, c);
      }
  }

  /** Over any run of reads, counting a reader with `cs` adds the delivered bytes, once for each place
      in `cs`, to what the chain beneath tells the counter; and it delivers the same bytes. */
  lemma {:induction false} RunChargesDeliveredBytes(cs: seq<CounterId>, inner: Shape, lens: seq<nat>, c: CounterId)
    ensures ReadRun(SCounted(cs, inner), lens).0 == ReadRun(inner, lens).0
    ensures RunCharge(SCounted(cs, inner), lens, c) == RunCharge(inner, lens, c) + Charge(|ReadRun(inner, lens).0|, cs, c)
    decreases |lens|
  {
    var s := SCounted(cs, inner);
    if lens == [] {
      ChargeAdd(0, 0, cs, c);
    } else {
      var (got, err, next) := ReadStep(inner, lens[0]);
      assert ReadStep(s, lens[0]) == (got, err, SCounted(cs, next));
      if err.None? {
        RunChargesDeliveredBytes(cs, next, lens[1..], c);
        ChargeAdd(|got|, |ReadRun(next, lens[1..]).0|, cs, c);
      }
    }
  }

  /** A counter that the chain beneath does not have is told nothing by it. */
  lemma {:induction false} RunChargesNobodyElse(s: Shape, lens: seq<nat>, c: CounterId)
    requires c !in Attached(s)
    ensures RunCharge(s, lens, c) == 0
    decreases |lens|
  {
    if lens != [] {
      AbsentIsNotCharged(s, lens[0], c);
      RunChargesNobodyElse(ReadStep(s, lens[0]).2, lens[1..], c);
    }
  }

  // ---------------------------------------------------------------- around a reader

  /** The links that peeling goes through. */
  function PeelDepth(s: Shape): nat {
    if !s.SCached? then 0 else if s.taken then 1 else 1 + PeelDepth(s.inner)
  }

  /** A reader under `k` cached readers whose buffers were picked. */
  function Under(k: nat, base: Shape): Shape {
    if k == 0 then base else SCached(true, [], Under(k - 1, base))
  }

  /** The counters around a chain, with another reader under them. */
  function Rewrap(s: Shape, base: Shape): Shape {
    if s.SCounted? then SCounted(s.counters, Rewrap(s.inner, base)) else base
  }
}
