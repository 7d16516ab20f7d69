/**
 Readers and writers at the far end of a stream.

 A peer plays a script, and every statement about peers is for all scripts: a reader may hand out
 any pieces with or without an error, a writer may write short or fail at any call. `Read(max)`
 returns the bytes that Go's Read puts at the front of its slice.
 */
module Peers {
  import opened Prelude
  import opened Alloc

  datatype Error =
    | EOF | ShortBuffer | ShortWrite | NoProgress | NegativeCount | Overflow
    | Other(code: int)
    | Wrapped(due: string, cause: Error)

  /** errors.Is for the errors above. */
  predicate Is(e: Error, target: Error) {
    e == target || (e.Wrapped? && Is(e.cause, target))
  }

  /** The error with `k` wrappers taken off, and with all of them taken off. */
  function Unwrapped(e: Error, k: nat): Error {
    if k == 0 || !e.Wrapped? then e else Unwrapped(e.cause, k - 1)
  }

  function Innermost(e: Error): (r: Error)
    ensures !r.Wrapped?
  {
    if e.Wrapped? then Innermost(e.cause) else e
  }

  lemma {:induction false} CauseFound(e: Error, target: Error) returns (k: nat)
    requires Is(e, target)
    ensures Unwrapped(e, k) == target
  {
    k := 0;
    if e != target {
      k := CauseFound(e.cause, target);
      k := k + 1;
    }
  }

  lemma {:induction false} CauseIs(e: Error, k: nat)
    ensures Is(e, Unwrapped(e, k))
  {
    if k > 0 && e.Wrapped? {
      CauseIs(e.cause, k - 1);
    }
  }

  /** errors.Is finds its target exactly if taking off some of the wrappers gives it. */
  lemma IsSomeCause(e: Error, target: Error)
    ensures Is(e, target) <==> exists k: nat :: Unwrapped(e, k) == target
  {
    if Is(e, target) {
      var k := CauseFound(e, target);
    }
    if k: nat :| Unwrapped(e, k) == target {
      CauseIs(e, k);
    }
  }

  /** For a target that wraps nothing, that is the innermost cause. */
  lemma {:induction false} IsInnermost(e: Error, target: Error)
    requires !target.Wrapped?
    ensures Is(e, target) <==> Innermost(e) == target
  {
    if e.Wrapped? {
      IsInnermost(e.cause, target);
    }
  }

  function Min(a: nat, b: nat): nat { if a < b then a else b }

  // ---------------------------------------------------------------- readers

  datatype Reply = Reply(data: seq<byte>, err: Option<Error>)

  /** One `Read` of at most `max` bytes: the bytes, the error, and the script that is left. A piece
      that does not fit is handed out in parts, its error with the last one. */
  function Serve(script: seq<Reply>, max: nat): (seq<byte>, Option<Error>, seq<Reply>) {
    if script == [] then ([], Some(EOF), [])
    else if |script[0].data| <= max then (script[0].data, script[0].err, script[1..])
    else (script[0].data[..max], None, [Reply(script[0].data[max..], script[0].err)] + script[1..])
  }

  /** Everything a reader hands out up to and including its first error. */
  function Stream(script: seq<Reply>): seq<byte> {
    if script == [] then []
    else if script[0].err.Some? then script[0].data
    else script[0].data + Stream(script[1..])
  }

  /** The error that ends the stream. */
  function End(script: seq<Reply>): Error {
    if script == [] then EOF
    else if script[0].err.Some? then script[0].err.value
    else End(script[1..])
  }

  /** A bound on the reads until the first error. */
  function Fuel(script: seq<Reply>): nat {
    if script == [] then 0 else 1 + |script[0].data| + Fuel(script[1..])
  }

  lemma ScriptCons(head: Reply, tail: seq<Reply>)
    ensures Stream([head] + tail) == if head.err.Some? then head.data else head.data + Stream(tail)
    ensures End([head] + tail) == if head.err.Some? then head.err.value else End(tail)
    ensures Fuel([head] + tail) == 1 + |head.data| + Fuel(tail)
  {
    assert ([head] + tail)[1..] == tail;
  }

  /** Handing out a piece in two parts changes nothing. */
  lemma ScriptSplit(head: Reply, tail: seq<Reply>, k: nat)
    requires k <= |head.data|
    ensures var more := Reply(head.data[k..], head.err);
      && Stream([head] + tail) == head.data[..k] + Stream([more] + tail)
      && End([head] + tail) == End([more] + tail)
      && Fuel([head] + tail) == k + Fuel([more] + tail)
  {
    var more := Reply(head.data[k..], head.err);
    ScriptCons(head, tail);
    ScriptCons(more, tail);
    assert head.data == head.data[..k] + more.data;
    ConcatAssoc(head.data[..k], more.data, Stream(tail));
  }

  lemma ConcatAssoc(a: seq<byte>, b: seq<byte>, c: seq<byte>)
    ensures (a + b) + c == a + (b + c)
  {
  }

  lemma TakeStep(s: seq<byte>, n: nat, k: nat)
    requires n + k <= |s|
    ensures s[..n] + s[n..][..k] == s[..n + k]
    ensures s[n..][k..] == s[n + k..]
  {
  }

  /** A read takes its bytes off the stream; an error ends it. */
  lemma ServeLaw(script: seq<Reply>, max: nat)
    ensures var (got, err, rest) := Serve(script, max);
      && |got| <= max
      && Stream(script) == (if err.None? then got + Stream(rest) else got)
      && (if err.None? then End(rest) == End(script) else err.value == End(script))
      && Fuel(rest) <= Fuel(script)
      && (err.None? && 0 < max ==> Fuel(rest) < Fuel(script))
  {
    if script != [] {
      assert script == [script[0]] + script[1..];
      if max < |script[0].data| {
        ScriptSplit(script[0], script[1..], max);
      } else {
        ScriptCons(script[0], script[1..]);
      }
    }
  }

  class Source {
    var script: seq<Reply>
    ghost var calls: nat

    constructor (script: seq<Reply>)
      ensures this.script == script && calls == 0
    {
      this.script, calls := script, 0;
    }

    method Read(max: nat) returns (got: seq<byte>, err: Option<Error>)
      modifies this
      ensures (got, err, script) == Serve(old(script), max)
      ensures calls == old(calls) + 1
      ensures |got| <= max
      ensures Stream(old(script)) == if err.None? then got + Stream(script) else got
      ensures if err.None? then End(script) == End(old(script)) else err.value == End(old(script))
      ensures Fuel(script) <= Fuel(old(script))
      ensures err.None? && 0 < max ==> Fuel(script) < Fuel(old(script))
    {
      ServeLaw(script, max);
      var (g, e, rest) := Serve(script, max);
      got, err, script := g, e, rest;
      calls := calls + 1;
    }
  }

  // ---------------------------------------------------------------- writers

  datatype WriteReply = WriteReply(n: nat, err: Option<Error>)

  /** One `Write` of `len` bytes: how many are taken, the error, and the script that is left. A
      writer whose script is used up takes everything. */
  function Accept(script: seq<WriteReply>, len: nat): (r: (nat, Option<Error>, seq<WriteReply>))
    ensures r.0 <= len
  {
    if script == [] then (len, None, []) else (Min(script[0].n, len), script[0].err, script[1..])
  }

  /** What a destination does when Copy asks it whether it still has to shake hands. */
  datatype Handshake =
    | NotNeeded
    | Bare(err: Option<Error>)                  // Handshake() error
    | WithBuffer(n: nat, err: Option<Error>)    // Handshake(bs) consumes up to n bytes of bs

  class Sink {
    var received: seq<byte>
    var script: seq<WriteReply>
    var handshake: Handshake
    ghost var calls: nat

    constructor (script: seq<WriteReply>, handshake: Handshake)
      ensures this.script == script && this.handshake == handshake
      ensures received == [] && calls == 0
    {
      this.script, this.handshake, received, calls := script, handshake, [], 0;
    }

    /** Takes a prefix of `p`. */
    method Write(p: seq<byte>) returns (n: nat, err: Option<Error>)
      modifies this`received, this`script, this`calls
      ensures (n, err, script) == Accept(old(script), |p|)
      ensures n <= |p| && received == old(received) + p[..n]
      ensures calls == old(calls) + 1
    {
      var (k, e, rest) := Accept(script, |p|);
      n, err, script := k, e, rest;
      received := received + p[..n];
      calls := calls + 1;
    }

    /** Handshake(), or Handshake(bs) with the bytes it consumes; either may fail. */
    method ShakeHands(bs: seq<byte>) returns (n: nat, err: Option<Error>)
      requires handshake != NotNeeded
      modifies this`received, this`handshake
      ensures n <= |bs| && received == old(received) + bs[..n] && handshake == NotNeeded
      ensures old(handshake).Bare? ==> n == 0 && err == old(handshake).err
      ensures old(handshake).WithBuffer? ==> n == Min(old(handshake).n, |bs|) && err == old(handshake).err
    {
      n, err := (if handshake.WithBuffer? then Min(handshake.n, |bs|) else 0), handshake.err;
      received := received + bs[..n];
      handshake := NotNeeded;
    }
  }
}
