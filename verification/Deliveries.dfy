/**
 What a copy delivers, from the chain it reads, the handshake that is due and the script of its
 destination.

 `Outcome` says it step by step; the theorems say in terms of the state before the call when a
 destination counts as failed, when bytes go missing without an error, and when everything arrives.
 */
module Deliveries {
  import opened Prelude
  import opened Alloc
  import opened Peers
  import opened Buffers
  import opened Counters
  import opened Sums
  import opened Chains

  const BUFFER_SIZE: nat := 4096
  const HUGE_SIZE: nat := 8 * 4096

  // ---------------------------------------------------------------- the read and write loop

  /** What a pass of the loop does to a chain. */
  lemma PassFacts(s: Shape, max: nat)
    requires !NilBased(s) && 0 < max
    ensures var (got, err, rest) := ReadStep(s, max);
      && Took(Unread(s), got, err, Unread(rest)) && !NilBased(rest) && rest.SNone? == s.SNone?
      && (if err.None? then EndOf(rest) == EndOf(s) && Work(rest) < Work(s) else err.value == EndOf(s))
  {
    ReadRefinesStream(s, max);
    NeverDrops(s, max);
    ReadEnds(s, max);
  }

  /** The lengths of the non-empty reads until the stream ends: what the loop writes, one by one. */
  function Pieces(s: Shape, max: nat): seq<nat>
    requires !NilBased(s) && 0 < max
    decreases Work(s)
  {
    ReadEnds(s, max);
    var (got, err, rest) := ReadStep(s, max);
    (if got == [] then [] else [|got|]) + (if err.Some? then [] else Pieces(rest, max))
  }

  /** `n` bytes delivered; the error, if the destination failed; `told`, what the loop's counters are
      told on the side that may differ from `n`; and what is left of the script. */
  datatype Delivery = Delivery(n: nat, err: Option<Error>, told: nat, rest: seq<WriteReply>)

  function Beyond(k: nat, d: Delivery): Delivery { d.(n := k + d.n, told := k + d.told) }

  /** io.CopyBuffer on the writing side; `told` counts the bytes read. */
  function Pump(script: seq<WriteReply>, pieces: seq<nat>): Delivery {
    if pieces == [] then Delivery(0, None, 0, script)
    else
      var (k, e, rest) := Accept(script, pieces[0]);
      if e.Some? then Delivery(k, e, pieces[0], rest)
      else if k < pieces[0] then Delivery(k, Some(Error.ShortWrite), pieces[0], rest)
      else Beyond(k, Pump(rest, pieces[1..]))
  }

  /** Reply `i` of the destination fails piece `i`. */
  predicate Balks(script: seq<WriteReply>, pieces: seq<nat>, i: nat) {
    i < |script| && i < |pieces| && (script[i].err.Some? || script[i].n < pieces[i])
  }

  predicate FirstBalk(script: seq<WriteReply>, pieces: seq<nat>, i: nat) {
    Balks(script, pieces, i) && forall j :: 0 <= j < i ==> !Balks(script, pieces, j)
  }

  lemma BalksTail(script: seq<WriteReply>, pieces: seq<nat>, i: nat)
    requires script != [] && pieces != []
    ensures Balks(script[1..], pieces[1..], i) <==> Balks(script, pieces, i + 1)
  {
    if i + 1 < |script| { assert script[1..][i] == script[i + 1]; }
    if i + 1 < |pieces| { assert pieces[1..][i] == pieces[i + 1]; }
  }

  /** A loop that fails failed at the first balking reply. */
  lemma {:induction false} PumpFailure(script: seq<WriteReply>, pieces: seq<nat>) returns (i: nat)
    requires Pump(script, pieces).err.Some?
    ensures FirstBalk(script, pieces, i)
    ensures var d := Pump(script, pieces);
      && d.n == Sum(pieces[..i]) + Min(script[i].n, pieces[i]) && d.told == Sum(pieces[..i + 1])
      && d.err == if script[i].err.Some? then script[i].err else Some(Error.ShortWrite)
    decreases |pieces|
  {
    var (k, e, rest) := Accept(script, pieces[0]);
    if e.Some? || k < pieces[0] {
      i := 0;
      assert pieces[..1] == [pieces[0]] && Sum([pieces[0]]) == pieces[0] + Sum([]);
    } else if script == [] {
      i := PumpFailure(rest, pieces[1..]);
      assert false;
    } else {
      var j := PumpFailure(rest, pieces[1..]);
      i := j + 1;
      BalksTail(script, pieces, j);
      forall h | 0 <= h < i
        ensures !Balks(script, pieces, h)
      {
        if h > 0 { BalksTail(script, pieces, h - 1); }
      }
      assert pieces[..i][1..] == pieces[1..][..j] && pieces[..i + 1][1..] == pieces[1..][..i];
    }
  }

  lemma {:induction false} PumpMeetsBalk(script: seq<WriteReply>, pieces: seq<nat>, i: nat)
    requires Balks(script, pieces, i)
    ensures Pump(script, pieces).err.Some?
    decreases |pieces|
  {
    var (k, e, rest) := Accept(script, pieces[0]);
    if i > 0 && e.None? && k == pieces[0] {
      BalksTail(script, pieces, i - 1);
      PumpMeetsBalk(rest, pieces[1..], i - 1);
    }
  }

  /** The loop fails exactly when some reply reports an error, or takes less than its piece. */
  lemma PumpFailsExactlyWhen(script: seq<WriteReply>, pieces: seq<nat>)
    ensures Pump(script, pieces).err.Some? <==> exists i :: 0 <= i < |pieces| && Balks(script, pieces, i)
  {
    if Pump(script, pieces).err.Some? {
      var i := PumpFailure(script, pieces);
    }
    if i :| 0 <= i < |pieces| && Balks(script, pieces, i) {
      PumpMeetsBalk(script, pieces, i);
    }
  }

  lemma {:induction false} PumpDelivers(script: seq<WriteReply>, pieces: seq<nat>)
    ensures var d := Pump(script, pieces);
      d.n <= d.told <= Sum(pieces) && (d.err.None? ==> d.n == d.told == Sum(pieces))
    decreases |pieces|
  {
    if pieces != [] {
      PumpDelivers(Accept(script, pieces[0]).2, pieces[1..]);
    }
  }

  /** One pass of the loop. */
  lemma PumpStep(script: seq<WriteReply>, s: Shape, max: nat)
    requires !NilBased(s) && 0 < max
    ensures var (got, readErr, rest) := ReadStep(s, max);
      var (k, e, script') := Accept(script, |got|);
      var d := Pump(script, Pieces(s, max));
      && !NilBased(rest)
      && (got == [] ==> d == if readErr.Some? then Delivery(0, None, 0, script) else Pump(script, Pieces(rest, max)))
      && (got != [] && e.Some? ==> d == Delivery(k, e, |got|, script'))
      && (got != [] && e.None? && k < |got| ==> d == Delivery(k, Some(Error.ShortWrite), |got|, script'))
      && (got != [] && e.None? && k == |got| ==>
           d == Beyond(k, if readErr.Some? then Delivery(0, None, 0, script') else Pump(script', Pieces(rest, max))))
  {
    ReadEnds(s, max);
    var (got, readErr, rest) := ReadStep(s, max);
    var more := if readErr.Some? then [] else Pieces(rest, max);
    if got == [] {
      assert Pieces(s, max) == [] + more == more;
    } else {
      assert Pieces(s, max) == [|got|] + more;
      assert ([|got|] + more)[1..] == more;
    }
  }

  /** The pieces make up the stream. */
  lemma {:induction false} PiecesMakeUpTheStream(s: Shape, max: nat)
    requires !NilBased(s) && 0 < max
    ensures Sum(Pieces(s, max)) == |Unread(s)|
    ensures forall i :: 0 <= i < |Pieces(s, max)| ==> 0 < Pieces(s, max)[i] <= max
    decreases Work(s)
  {
    ReadRefinesStream(s, max);
    NeverDrops(s, max);
    ReadEnds(s, max);
    var (got, err, rest) := ReadStep(s, max);
    var first, more := if got == [] then [] else [|got|], if err.Some? then [] else Pieces(rest, max);
    SumConcat(first, more);
    assert Sum(first) == |got|;
    if err.None? {
      PiecesMakeUpTheStream(rest, max);
    }
    assert Pieces(s, max) == first + more;
  }

  lemma {:induction false} PiecesOfCounted(cs: seq<CounterId>, s: Shape, max: nat)
    requires !NilBased(s) && 0 < max
    ensures Pieces(SCounted(cs, s), max) == Pieces(s, max)
    decreases Work(s)
  {
    ReadEnds(s, max);
    var (got, err, rest) := ReadStep(s, max);
    if err.None? {
      PiecesOfCounted(cs, rest, max);
    }
  }

  /** Counting does not change what the loop writes. */
  lemma {:induction false} PiecesOfAdded(s: Shape, cs: seq<CounterId>, max: nat)
    requires !NilBased(s) && 0 < max
    ensures !NilBased(AddCounters(s, cs)) && Pieces(AddCounters(s, cs), max) == Pieces(s, max)
  {
    if s.SCounted? {
      PiecesOfCounted(s.counters, s.inner, max);
      PiecesOfCounted(s.counters + cs, s.inner, max);
    } else if cs != [] {
      assert Unwrap(s) == (s, []);
      PiecesOfCounted([] + cs, s, max);
    }
  }

  // ---------------------------------------------------------------- the cached buffers

  function Lens(contents: seq<seq<byte>>): (ns: seq<nat>)
    ensures |ns| == |contents|
  {
    if contents == [] then [] else [|contents[0]|] + Lens(contents[1..])
  }

  lemma {:induction false} LensOfFlatten(contents: seq<seq<byte>>)
    ensures Sum(Lens(contents)) == |Flatten(contents)|
  {
    if contents != [] {
      LensOfFlatten(contents[1..]);
      assert Lens(contents)[1..] == Lens(contents[1..]);
    }
  }

  /** The loop of copyEarly over the picked buffers; `told` counts the bytes of the buffers that went
      out whole. */
  function Caches(script: seq<WriteReply>, lens: seq<nat>): Delivery
    requires AllPositive(lens)
    decreases |lens|
  {
    if lens == [] then Delivery(0, None, 0, script)
    else
      var d := Drain(script, lens[0], 0);
      if d.err.Some? then Delivery(lens[0] - d.left, d.err, 0, d.rest)
      else Beyond(lens[0], Caches(d.rest, lens[1..]))
  }

  lemma {:induction false} CachesDeliver(script: seq<WriteReply>, lens: seq<nat>)
    requires AllPositive(lens)
    ensures var d := Caches(script, lens);
      d.told <= d.n <= Sum(lens) && (d.err.None? ==> d.told == d.n == Sum(lens))
    decreases |lens|
  {
    if lens != [] {
      CachesDeliver(Drain(script, lens[0], 0).rest, lens[1..]);
    }
  }

  /** Buffer `b` is where the loop over the buffers fails: those before it go out, and its own WriteTo
      meets a reply that ends it. */
  ghost predicate BufferFails(script: seq<WriteReply>, lens: seq<nat>, b: nat)
    requires AllPositive(lens)
  {
    && b < |lens|
    && var before := Caches(script, lens[..b]);
      && before.err.None?
      && exists j :: 0 <= j < |before.rest| && TakenBy(before.rest, j) < lens[b] && Stops(before.rest, j, 0)
  }

  lemma {:induction false} CachesFirst(script: seq<WriteReply>, lens: seq<nat>, b: nat)
    requires AllPositive(lens) && b < |lens|
    ensures var before := Caches(script, lens[..b]);
      && (before.err.Some? ==> Caches(script, lens).err.Some?)
      && (before.err.None? && Drain(before.rest, lens[b], 0).err.Some? ==> Caches(script, lens).err.Some?)
    decreases |lens|
  {
    if b > 0 {
      assert lens[..b][1..] == lens[1..][..b - 1];
      var d := Drain(script, lens[0], 0);
      if d.err.None? {
        CachesFirst(d.rest, lens[1..], b - 1);
      }
    }
  }

  /** The buffer at which the loop fails decides the error and the bytes: the counters are told those of the
      buffers before it, and its own that the destination took are delivered besides. */
  lemma {:induction false} CachesFailure(script: seq<WriteReply>, lens: seq<nat>) returns (b: nat)
    requires AllPositive(lens) && Caches(script, lens).err.Some?
    ensures b < |lens| && Caches(script, lens[..b]).err.None? && Drain(Caches(script, lens[..b]).rest, lens[b], 0).err.Some?
    ensures var c, d := Caches(script, lens), Drain(Caches(script, lens[..b]).rest, lens[b], 0);
      c.err == d.err && c.told == Sum(lens[..b]) && c.n == Sum(lens[..b]) + (lens[b] - d.left)
    decreases |lens|
  {
    var d := Drain(script, lens[0], 0);
    if d.err.Some? {
      b := 0;
    } else {
      var c := CachesFailure(d.rest, lens[1..]);
      b := c + 1;
      assert lens[..b][1..] == lens[1..][..c];
    }
  }

  /** The loop over the buffers fails exactly when some buffer's WriteTo does. */
  lemma CachesFailExactlyWhen(script: seq<WriteReply>, lens: seq<nat>)
    requires AllPositive(lens)
    ensures Caches(script, lens).err.Some? <==> exists b :: 0 <= b < |lens| && BufferFails(script, lens, b)
  {
    if Caches(script, lens).err.Some? {
      var b := CachesFailure(script, lens);
      DrainFailsExactlyWhen(Caches(script, lens[..b]).rest, lens[b]);
      assert BufferFails(script, lens, b);
    }
    if b :| 0 <= b < |lens| && BufferFails(script, lens, b) {
      DrainFailsExactlyWhen(Caches(script, lens[..b]).rest, lens[b]);
      CachesFirst(script, lens, b);
    }
  }

  // ---------------------------------------------------------------- the handshake

  /** What may come between a copy and its end. */
  datatype Mishap =
    | Nothing
    | HandshakeReadFailed    // the read for the handshake reported an error, io.EOF included
    | HandshakeShort         // the handshake took fewer bytes than it was given, without an error
    | Refused                // the destination failed

  /** What the handshake makes of a copy, from what it is set up to do and the first read. */
  function ShakeFate(h: Handshake, s: Shape): Mishap {
    match h
    case NotNeeded => Nothing
    case Bare(err) => if err.Some? then Refused else Nothing
    case WithBuffer(k, err) =>
      var (got, readErr, _) := ReadStep(s, BUFFER_SIZE);
      if readErr.Some? then HandshakeReadFailed
      else if err.Some? then Refused
      else if k < |got| then HandshakeShort
      else Nothing
  }

  /** After the handshake: the chain, the bytes read for it, and the bytes it consumed. */
  function Shaken(h: Handshake, s: Shape): (Shape, nat, nat) {
    if h.WithBuffer? then
      var (got, _, rest) := ReadStep(s, BUFFER_SIZE);
      (rest, |got|, Min(h.n, |got|))
    else (s, 0, 0)
  }

  lemma ShakenKeeps(h: Handshake, s: Shape)
    requires Sound(s) && !NilBased(s)
    ensures var s1 := Shaken(h, s).0;
      && Sound(s1) && !NilBased(s1)
      && var (base, contents) := Peel(s1);
         && Sound(base) && !NilBased(base) && EndOf(base) == EndOf(s1)
         && Unread(s1) == Flatten(contents) + Unread(base)
         && AllPositive(Lens(contents))
  {
    ReadStaysSound(s, BUFFER_SIZE);
    ReadEnds(s, BUFFER_SIZE);
    var s1 := Shaken(h, s).0;
    PeelKeepsUnread(s1);
    LensPositive(Peel(s1).1);
  }

  lemma {:induction false} LensPositive(contents: seq<seq<byte>>)
    ensures |Lens(contents)| == |contents|
    ensures forall i :: 0 <= i < |contents| ==> Lens(contents)[i] == |contents[i]|
    ensures (forall i :: 0 <= i < |contents| ==> contents[i] != []) ==> AllPositive(Lens(contents))
  {
    if contents != [] {
      LensPositive(contents[1..]);
    }
  }

  lemma ReadForHandshakeFacts(s: Shape)
    requires !NilBased(s)
    ensures var (got, err, rest) := ReadStep(s, BUFFER_SIZE);
      && !NilBased(rest)
      && (if err.None? then Unread(s) == got + Unread(rest) && EndOf(rest) == EndOf(s)
          else Unread(s) == got && err.value == EndOf(s))
  {
    PassFacts(s, BUFFER_SIZE);
  }

  /** What reaches a destination that never fails after its handshake: everything, unless the
      handshake's own read failed or the handshake left bytes unused. */
  ghost function Arriving(h: Handshake, s: Shape): seq<byte> {
    var got := ReadStep(s, BUFFER_SIZE).0;
    match ShakeFate(h, s)
    case Nothing => Unread(s)
    case Refused => Unread(s)
    case HandshakeReadFailed => []
    case HandshakeShort => if |got| <= |Unread(s)| && h.n <= |got| then got[..h.n] + Unread(s)[|got|..] else []
  }

  lemma ArrivingFacts(h: Handshake, s: Shape, rest: seq<byte>)
    requires h.WithBuffer? && ReadStep(s, BUFFER_SIZE).1.None?
    requires Unread(s) == ReadStep(s, BUFFER_SIZE).0 + rest
    ensures var got := ReadStep(s, BUFFER_SIZE).0;
      var k := Min(h.n, |got|);
      && k <= |got| && k <= |Arriving(h, s)| && Arriving(h, s)[..k] == got[..k]
      && (h.err.None? ==> Arriving(h, s) == Arriving(h, s)[..k] + rest)
      && (h.err.None? && k < |got| ==> |Arriving(h, s)| < |Unread(s)|)
  {
    var got := ReadStep(s, BUFFER_SIZE).0;
    var k := Min(h.n, |got|);
    assert Unread(s)[|got|..] == rest && Unread(s)[..|got|] == got;
    if h.err.Some? || k == |got| {
      assert Arriving(h, s) == Unread(s);
      assert Unread(s)[..k] == got[..k];
    } else {
      assert Arriving(h, s) == got[..k] + rest;
      assert Arriving(h, s)[..k] == got[..k];
    }
  }

  // ---------------------------------------------------------------- the outcome

  /** The error of copyPure as CopyCounters reports it: nothing for an io.EOF, whoever it came from. */
  function PureError(err: Option<Error>): Option<Error> {
    if err.None? || Is(err.value, EOF) then None else Some(Wrapped("copyPure", err.value))
  }

  lemma PureErrors(err: Option<Error>)
    ensures err.None? ==> PureError(err) == None
    ensures err.Some? ==> PureError(err) == if Innermost(err.value) == EOF then None else Some(Wrapped("copyPure", err.value))
    ensures err.Some? && PureError(err).Some? ==> Innermost(PureError(err).value) == Innermost(err.value) != EOF
    ensures err == Some(Error.ShortWrite) ==> PureError(err).Some?
    ensures err == Some(EOF) ==> PureError(err).None?
  {
    if err.Some? {
      IsInnermost(err.value, EOF);
    }
  }

  /** The lengths of the cached buffers that are written out first. */
  function CachedLens(h: Handshake, s: Shape): (lens: seq<nat>)
    requires Sound(s) && !NilBased(s)
    ensures AllPositive(lens)
  {
    ShakenKeeps(h, s);
    Lens(Peel(Shaken(h, s).0).1)
  }

  /** The lengths of what the loop reads and writes after them. */
  function LoopPieces(h: Handshake, s: Shape): seq<nat>
    requires Sound(s) && !NilBased(s)
  {
    ShakenKeeps(h, s);
    Pieces(Peel(Shaken(h, s).0).0, HUGE_SIZE)
  }

  /** `sent` bytes are delivered, `n` is returned; the counters on the outside are told `readTold`
      and `writeTold` bytes; `refused` when the destination failed. */
  datatype Result = Result(n: nat, err: Option<Error>, sent: nat, readTold: nat, writeTold: nat, refused: bool)

  /** CopyCounters(destination, source) for a destination with handshake `h` and the given script. */
  function Outcome(h: Handshake, s: Shape, script: seq<WriteReply>): Result
    requires Sound(s) && !NilBased(s)
  {
    var (_, m, k) := Shaken(h, s);
    var fate := ShakeFate(h, s);
    if fate.HandshakeReadFailed? then
      Result(m, Some(Wrapped("copyEarly", Wrapped("handshake: read", EndOf(s)))), 0, m, 0, false)
    else if fate.Refused? then
      Result(k, Some(Wrapped("copyEarly", Wrapped(if h.Bare? then "handshake" else "handshake: write", h.err.value))), k, m, k, true)
    else
      var c := Caches(script, CachedLens(h, s));
      if c.err.Some? then
        Result(k + c.n, Some(Wrapped("copyEarly", Wrapped("writeCache", c.err.value))), k + c.n, m + c.told, k + c.told, true)
      else
        var p := Pump(c.rest, LoopPieces(h, s));
        var n := k + c.n + p.n;
        Result(n, PureError(if p.err.Some? then p.err else Some(EndOf(s))), n, m + c.n + p.told, n, p.err.Some?)
  }

  lemma OutcomeCases(h: Handshake, s: Shape, script: seq<WriteReply>)
    requires Sound(s) && !NilBased(s)
    ensures var (s1, m, k) := Shaken(h, s);
      var fate, r := ShakeFate(h, s), Outcome(h, s, script);
      var c := Caches(script, CachedLens(h, s));
      var p := Pump(c.rest, LoopPieces(h, s));
      && (fate.HandshakeReadFailed? ==>
           r.err.Some? && (r.n, r.sent, r.readTold, r.writeTold, r.refused) == (m, 0, m, 0, false))
      && (fate.Refused? ==> r.err.Some? && (r.n, r.sent, r.readTold, r.writeTold, r.refused) == (k, k, m, k, true))
      && (fate.Nothing? || fate.HandshakeShort? ==>
           if c.err.Some? then
             r.err.Some? && (r.n, r.sent, r.readTold, r.writeTold, r.refused) == (k + c.n, k + c.n, m + c.told, k + c.told, true)
           else
             var n := k + c.n + p.n;
             && r.err == PureError(if p.err.Some? then p.err else Some(EndOf(s)))
             && (r.n, r.sent, r.readTold, r.writeTold, r.refused) == (n, n, m + c.n + p.told, n, p.err.Some?))
  {
    hide ShakeFate, Shaken, Caches, Pump, CachedLens, LoopPieces, PureError, Sound, NilBased, EndOf;
  }

  /** Two failing cases, with a destination that takes everything. A handshake that uses one of two
      bytes: the result is nil, and the other byte never arrives. A first read that hands out two
      bytes together with io.EOF: two bytes are reported, and none arrives. */
  lemma HandshakeMayLoseBytes(a: byte, b: byte)
    ensures var s := SPlain([Reply([a, b], None)]);
      && Sound(s) && !NilBased(s) && Unread(s) == [a, b] && Arriving(WithBuffer(1, None), s) == [a]
      && Outcome(WithBuffer(1, None), s, []) == Result(1, None, 1, 2, 1, false)
    ensures var s := SPlain([Reply([a, b], Some(EOF))]);
      && Sound(s) && !NilBased(s) && Unread(s) == [a, b] && Arriving(WithBuffer(2, None), s) == []
      && Outcome(WithBuffer(2, None), s, []) ==
           Result(2, Some(Wrapped("copyEarly", Wrapped("handshake: read", EOF))), 0, 2, 0, false)
  {
    var r1, r2 := Reply([a, b], None), Reply([a, b], Some(EOF));
    ScriptCons(r1, []);
    ScriptCons(r2, []);
    assert [r1] + [] == [r1] && [r2] + [] == [r2] && [a, b] + [] == [a, b];
    ReadsBoth(a, b, None);
    ReadsBoth(a, b, Some(EOF));
    assert [a, b][..1] + [a, b][2..] == [a];
    OneOfTwo(a, b);
  }

  lemma ReadsBoth(a: byte, b: byte, err: Option<Error>)
    ensures ReadStep(SPlain([Reply([a, b], err)]), BUFFER_SIZE) == ([a, b], err, SPlain([]))
  {
    assert [Reply([a, b], err)][1..] == [];
  }

  lemma OneOfTwo(a: byte, b: byte)
    ensures var s := SPlain([Reply([a, b], None)]); Outcome(WithBuffer(1, None), s, []) == Result(1, None, 1, 2, 1, false)
  {
    var h, s := WithBuffer(1, None), SPlain([Reply([a, b], None)]);
    ReadsBoth(a, b, None);
    assert Shaken(h, s) == (SPlain([]), 2, 1) && ShakeFate(h, s) == HandshakeShort;
    assert CachedLens(h, s) == [] && LoopPieces(h, s) == [];
    assert Caches([], []) == Delivery(0, None, 0, []) && Pump([], []) == Delivery(0, None, 0, []);
    ScriptCons(Reply([a, b], None), []);
    assert [Reply([a, b], None)] + [] == [Reply([a, b], None)];
    PureErrors(Some(EOF));
    OutcomeCases(h, s, []);
  }

  /** A handshake that goes through leaves the rest to arrive behind what it consumed. */
  lemma ArrivingSplit(h: Handshake, s: Shape)
    requires Sound(s) && !NilBased(s) && !ShakeFate(h, s).HandshakeReadFailed? && !ShakeFate(h, s).Refused?
    ensures var (s1, m, k) := Shaken(h, s);
      && |Arriving(h, s)| == k + |Unread(s1)| && k <= m && EndOf(s1) == EndOf(s)
      && (ShakeFate(h, s).Nothing? ==> k == m && |Arriving(h, s)| == |Unread(s)|)
      && (ShakeFate(h, s).HandshakeShort? ==> |Arriving(h, s)| < |Unread(s)|)
  {
    if h.WithBuffer? {
      ReadForHandshakeFacts(s);
      ArrivingFacts(h, s, Unread(Shaken(h, s).0));
    }
  }

  /** What the parts of a copy deliver, when the handshake goes through. */
  lemma OutcomeParts(h: Handshake, s: Shape, script: seq<WriteReply>)
    requires Sound(s) && !NilBased(s) && !ShakeFate(h, s).HandshakeReadFailed? && !ShakeFate(h, s).Refused?
    ensures var (s1, m, k) := Shaken(h, s);
      var c := Caches(script, CachedLens(h, s));
      var p := Pump(c.rest, LoopPieces(h, s));
      && |Arriving(h, s)| == k + Sum(CachedLens(h, s)) + Sum(LoopPieces(h, s)) && k <= m
      && (ShakeFate(h, s).Nothing? ==> k == m && |Arriving(h, s)| == |Unread(s)|)
      && c.told <= c.n <= Sum(CachedLens(h, s)) && (c.err.None? ==> c.told == c.n == Sum(CachedLens(h, s)))
      && p.n <= p.told <= Sum(LoopPieces(h, s)) && (p.err.None? ==> p.n == p.told == Sum(LoopPieces(h, s)))
      && (forall i :: 0 <= i < |LoopPieces(h, s)| ==> 0 < LoopPieces(h, s)[i] <= HUGE_SIZE)
  {
    ShakenKeeps(h, s);
    ArrivingSplit(h, s);
    var (base, contents) := Peel(Shaken(h, s).0);
    LensOfFlatten(contents);
    PiecesMakeUpTheStream(base, HUGE_SIZE);
    CachesDeliver(script, CachedLens(h, s));
    PumpDelivers(Caches(script, CachedLens(h, s)).rest, LoopPieces(h, s));
  }

  /** What every outcome keeps: nothing is delivered that cannot arrive, a destination that did not
      fail got all of it, and the write counters are never told more than was delivered. */
  lemma OutcomeLaw(h: Handshake, s: Shape, script: seq<WriteReply>)
    requires Sound(s) && !NilBased(s)
    ensures var r := Outcome(h, s, script);
      && r.sent <= |Arriving(h, s)| && r.writeTold <= r.sent && r.writeTold <= r.readTold
      && (ShakeFate(h, s).HandshakeReadFailed? ==> r.sent == 0 && r.n == |Unread(s)| && !r.refused && r.err.Some?)
      && (!ShakeFate(h, s).HandshakeReadFailed? ==> r.n == r.sent)
      && (ShakeFate(h, s).Refused? ==> r.refused && r.err.Some?)
      && (!r.refused && !ShakeFate(h, s).HandshakeReadFailed? ==>
           r.sent == |Arriving(h, s)| && (r.err.None? <==> Innermost(EndOf(s)) == EOF)
           && (r.err.Some? ==> Innermost(r.err.value) == Innermost(EndOf(s))))
      && (!r.refused && ShakeFate(h, s).Nothing? ==> r.n == |Unread(s)| == r.readTold == r.writeTold)
  {
    OutcomeCases(h, s, script);
    ShakenFacts(h, s);
    hide *;
    if ShakeFate(h, s).Nothing? || ShakeFate(h, s).HandshakeShort? {
      OutcomeParts(h, s, script);
      PureErrors(Some(EndOf(s)));
    }
  }

  /** Whatever error a copy returns names the stage, and its innermost cause is that of what ended it: the end
      of the stream for a failing read, otherwise the handshake, the writing out of a cached buffer, the
      loop's destination, or the end of the stream. The loop's end is nil exactly if its innermost cause is
      io.EOF. */
  lemma OutcomeError(h: Handshake, s: Shape, script: seq<WriteReply>)
    requires Sound(s) && !NilBased(s)
    ensures var fate, err := ShakeFate(h, s), Outcome(h, s, script).err;
      var c := Caches(script, CachedLens(h, s));
      var p := Pump(c.rest, LoopPieces(h, s));
      && (fate.HandshakeReadFailed? ==>
           err == Some(Wrapped("copyEarly", Wrapped("handshake: read", EndOf(s)))) && Innermost(err.value) == Innermost(EndOf(s)))
      && (fate.Refused? ==> (h.Bare? || h.WithBuffer?) && h.err.Some? && err.Some? && Innermost(err.value) == Innermost(h.err.value))
      && (!fate.HandshakeReadFailed? && !fate.Refused? ==>
           if c.err.Some? then
             err == Some(Wrapped("copyEarly", Wrapped("writeCache", c.err.value))) && Innermost(err.value) == Innermost(c.err.value)
           else
             var last := if p.err.Some? then p.err.value else EndOf(s);
             && (err.None? <==> Innermost(last) == EOF)
             && (err.Some? ==> err == Some(Wrapped("copyPure", last)) && Innermost(err.value) == Innermost(last)))
  {
    hide Caches, Pump, CachedLens, LoopPieces, Shaken, PureError, Sound, NilBased, EndOf;
    var p := Pump(Caches(script, CachedLens(h, s)).rest, LoopPieces(h, s));
    PureErrors(if p.err.Some? then p.err else Some(EndOf(s)));
  }

  /** A handshake without a buffer that fails ends the copy with nothing moved. One with a buffer is handed
      the first read, of at most 4096 bytes: if that read reports an error nothing is delivered, and if the
      handshake fails it is what it consumed; either way the outer read counters are told the whole read. */
  lemma HandshakeOutcome(h: Handshake, s: Shape, script: seq<WriteReply>)
    requires Sound(s) && !NilBased(s)
    ensures h.Bare? && h.err.Some? ==>
      var r := Outcome(h, s, script);
      r.n == r.sent == r.readTold == r.writeTold == 0 && r.err.Some? && Innermost(r.err.value) == Innermost(h.err.value)
    ensures h.WithBuffer? ==>
      var r := Outcome(h, s, script);
      var (got, readErr, _) := ReadStep(s, 4096);
      && (readErr.Some? ==>
           && r.n == r.readTold == |got| && r.sent == r.writeTold == 0
           && r.err.Some? && Innermost(r.err.value) == Innermost(EndOf(s)))
      && (readErr.None? && h.err.Some? ==>
           && r.n == r.sent == r.writeTold == Min(h.n, |got|) && r.readTold == |got|
           && r.err.Some? && Innermost(r.err.value) == Innermost(h.err.value))
      && (readErr.None? && h.err.None? ==> Min(h.n, |got|) <= r.writeTold <= r.sent == r.n && |got| <= r.readTold)
  {
    OutcomeCases(h, s, script);
    OutcomeError(h, s, script);
    OutcomeLaw(h, s, script);
    if h.WithBuffer? && ReadStep(s, 4096).1.None? && h.err.None? {
      assert ShakeFate(h, s).Nothing? || ShakeFate(h, s).HandshakeShort?;
    }
    hide Outcome, Caches, Pump, CachedLens, LoopPieces, Arriving;
  }

  /** The handshake alone, where it ends the copy. */
  lemma ShakenFacts(h: Handshake, s: Shape)
    requires Sound(s) && !NilBased(s)
    ensures var (_, m, k) := Shaken(h, s);
      && k <= m && (ShakeFate(h, s).HandshakeReadFailed? ==> m == |Unread(s)|)
      && (ShakeFate(h, s).Refused? ==> k <= |Arriving(h, s)|)
  {
    if h.WithBuffer? {
      ReadForHandshakeFacts(s);
      if !ShakeFate(h, s).HandshakeReadFailed? {
        ArrivingFacts(h, s, Unread(Shaken(h, s).0));
      }
    }
  }

  /** The destination counts as failed: in the handshake, at one of the cached buffers, or at one of
      the pieces the loop reads after them. */
  ghost predicate DestinationFails(h: Handshake, s: Shape, script: seq<WriteReply>)
    requires Sound(s) && !NilBased(s)
  {
    var fate := ShakeFate(h, s);
    || fate.Refused?
    || (!fate.HandshakeReadFailed?
        && ((exists b :: 0 <= b < |CachedLens(h, s)| && BufferFails(script, CachedLens(h, s), b))
            || LoopFails(Caches(script, CachedLens(h, s)), LoopPieces(h, s))))
  }

  ghost predicate LoopFails(c: Delivery, pieces: seq<nat>) {
    c.err.None? && exists i :: 0 <= i < |pieces| && Balks(c.rest, pieces, i)
  }

  lemma RefusedExactlyWhen(h: Handshake, s: Shape, script: seq<WriteReply>)
    requires Sound(s) && !NilBased(s)
    ensures Outcome(h, s, script).refused <==> DestinationFails(h, s, script)
  {
    CachesFailExactlyWhen(script, CachedLens(h, s));
    PumpFailsExactlyWhen(Caches(script, CachedLens(h, s)).rest, LoopPieces(h, s));
  }

  /** A nil result with bytes missing comes exactly from a destination whose first failure is an
      io.EOF at a piece of the loop, with bytes still to go. */
  ghost predicate EofCutsShort(c: Delivery, pieces: seq<nat>) {
    && c.err.None?
    && exists i :: 0 <= i < |pieces| && FirstBalk(c.rest, pieces, i)
         && c.rest[i].err.Some? && Innermost(c.rest[i].err.value) == EOF && (c.rest[i].n < pieces[i] || i + 1 < |pieces|)
  }

  lemma PumpCutShort(script: seq<WriteReply>, pieces: seq<nat>)
    requires AllPositive(pieces)
    ensures var d := Pump(script, pieces);
      (d.err.Some? && PureError(d.err).None? && d.n < Sum(pieces)) <==> EofCutsShort(Delivery(0, None, 0, script), pieces)
  {
    var d := Pump(script, pieces);
    PureErrors(d.err);
    if d.err.Some? {
      var i := PumpFailure(script, pieces);
      SumAt(pieces, i);
      RestIsPositive(pieces, i);
      assert forall j :: FirstBalk(script, pieces, j) ==> j == i by {
        forall j | FirstBalk(script, pieces, j)
          ensures j == i
        {
          assert j < i ==> !Balks(script, pieces, j);
        }
      }
    } else {
      PumpFailsExactlyWhen(script, pieces);
    }
  }

  lemma RestIsPositive(pieces: seq<nat>, i: nat)
    requires AllPositive(pieces) && i < |pieces|
    ensures 0 < Sum(pieces[i + 1..]) <==> i + 1 < |pieces|
  {
    if i + 1 < |pieces| {
      assert pieces[i + 1..][0] == pieces[i + 1];
    }
  }

  /** After a nil result the destination has the whole stream exactly when the handshake used all it
      was given and no io.EOF of the destination cut the loop short. */
  lemma NilMeansEverythingExactlyWhen(h: Handshake, s: Shape, script: seq<WriteReply>)
    requires Sound(s) && !NilBased(s) && Outcome(h, s, script).err.None?
    ensures Outcome(h, s, script).n == |Unread(s)| <==>
      !ShakeFate(h, s).HandshakeShort? && !EofCutsShort(Caches(script, CachedLens(h, s)), LoopPieces(h, s))
  {
    hide *;
    OutcomeCases(h, s, script);
    OutcomeLaw(h, s, script);
    ArrivingSplit(h, s);
    OutcomeParts(h, s, script);
    EofCutsShortAlone(Caches(script, CachedLens(h, s)), LoopPieces(h, s));
    PumpCutShort(Caches(script, CachedLens(h, s)).rest, LoopPieces(h, s));
  }

  /** When a nil result hides missing bytes, without a handshake or with one that uses all it gets. */
  lemma NilWithBytesMissingExactlyWhen(h: Handshake, s: Shape, script: seq<WriteReply>)
    requires Sound(s) && !NilBased(s) && ShakeFate(h, s).Nothing?
    ensures var r := Outcome(h, s, script);
      (r.err.None? && r.n < |Unread(s)|) <==> EofCutsShort(Caches(script, CachedLens(h, s)), LoopPieces(h, s))
  {
    hide *;
    OutcomeCases(h, s, script);
    OutcomeParts(h, s, script);
    EofCutsShortAlone(Caches(script, CachedLens(h, s)), LoopPieces(h, s));
    PumpCutShort(Caches(script, CachedLens(h, s)).rest, LoopPieces(h, s));
  }

  lemma EofCutsShortAlone(c: Delivery, pieces: seq<nat>)
    ensures EofCutsShort(c, pieces) <==> c.err.None? && EofCutsShort(Delivery(0, None, 0, c.rest), pieces)
    ensures AllPositive(pieces) <==> forall i :: 0 <= i < |pieces| ==> 0 < pieces[i]
  {
  }

  // ---------------------------------------------------------------- well-behaved destinations

  /** Every reply takes whatever the loop may offer, and none reports an error. */
  predicate Willing(script: seq<WriteReply>) {
    forall i :: 0 <= i < |script| ==> script[i].err.None? && HUGE_SIZE <= script[i].n
  }

  /** No reply reports io.EOF, wrapped or not. */
  predicate NoEof(script: seq<WriteReply>) {
    forall i :: 0 <= i < |script| ==> script[i].err.Some? ==> Innermost(script[i].err.value) != EOF
  }

  lemma {:induction false} WillingDrains(script: seq<WriteReply>, len: nat)
    requires 0 < len && Willing(script)
    ensures Drain(script, len, 0).err.None? && Willing(Drain(script, len, 0).rest)
    decreases |script|
  {
    if script != [] && script[0].n < len {
      WillingDrains(script[1..], len - script[0].n);
    }
  }

  lemma {:induction false} WillingCaches(script: seq<WriteReply>, lens: seq<nat>)
    requires AllPositive(lens) && Willing(script)
    ensures Caches(script, lens).err.None? && Willing(Caches(script, lens).rest)
    decreases |lens|
  {
    if lens != [] {
      WillingDrains(script, lens[0]);
      WillingCaches(Drain(script, lens[0], 0).rest, lens[1..]);
    }
  }

  /** A destination that takes everything never counts as failed, unless its handshake fails. */
  lemma WillingIsNotRefused(h: Handshake, s: Shape, script: seq<WriteReply>)
    requires Sound(s) && !NilBased(s) && Willing(script) && !ShakeFate(h, s).Refused?
    ensures !Outcome(h, s, script).refused
  {
    if !ShakeFate(h, s).HandshakeReadFailed? {
      OutcomeParts(h, s, script);
      WillingCaches(script, CachedLens(h, s));
      PumpFailsExactlyWhen(Caches(script, CachedLens(h, s)).rest, LoopPieces(h, s));
    }
  }

  lemma {:induction false} DrainLeavesASuffix(script: seq<WriteReply>, len: nat, retry: nat)
    requires 0 < len && retry <= RETRIES && NoEof(script)
    ensures NoEof(Drain(script, len, retry).rest)
    decreases |script|
  {
    var (k, e, rest) := Accept(script, len);
    if script != [] && e.None? && k < len && !(k == 0 && RETRIES < retry + 1) {
      DrainLeavesASuffix(rest, len - k, if k == 0 then retry + 1 else 0);
    }
  }

  lemma {:induction false} CachesLeaveASuffix(script: seq<WriteReply>, lens: seq<nat>)
    requires AllPositive(lens) && NoEof(script)
    ensures NoEof(Caches(script, lens).rest)
    decreases |lens|
  {
    if lens != [] {
      DrainLeavesASuffix(script, lens[0], 0);
      CachesLeaveASuffix(Drain(script, lens[0], 0).rest, lens[1..]);
    }
  }

  /** Without an io.EOF from the destination a nil result means that everything that can arrive did. */
  lemma NoEofNoLoss(h: Handshake, s: Shape, script: seq<WriteReply>)
    requires Sound(s) && !NilBased(s) && NoEof(script)
    ensures Outcome(h, s, script).err.None? ==> !Outcome(h, s, script).refused
  {
    var c := Caches(script, CachedLens(h, s));
    CachesLeaveASuffix(script, CachedLens(h, s));
    OutcomeCases(h, s, script);
    var p := Pump(c.rest, LoopPieces(h, s));
    PureErrors(p.err);
    if p.err.Some? {
      var i := PumpFailure(c.rest, LoopPieces(h, s));
      assert p.err == c.rest[i].err || p.err == Some(Error.ShortWrite);
      assert c.rest[i].err.Some? ==> Innermost(c.rest[i].err.value) != EOF;
    }
    hide *;
  }
}
