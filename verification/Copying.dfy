/** `Copy` through the plain read and write loop, from the counters on the outside to the source. */
module Copying {
  import opened Prelude
  import opened Alloc
  import opened Peers
  import opened Buffers
  import opened Counters
  import opened Sums
  import opened Chains
  import opened Readers
  import opened Deliveries
  import opened Aftermath

  // ---------------------------------------------------------------- counting writers

  class WriteCell {
    var counters: seq<CounterId>

    constructor (counters: seq<CounterId>)
      ensures this.counters == counters
    {
      this.counters := counters;
    }
  }

  datatype Writer = PlainW(sink: Sink) | CountedW(count: WriteCell, inner: Writer)

  function SinkOf(w: Writer): Sink {
    match w
    case PlainW(sink) => sink
    case CountedW(_, inner) => SinkOf(inner)
  }

  ghost function Cells(w: Writer): set<WriteCell> {
    match w
    case PlainW(_) => {}
    case CountedW(count, inner) => {count} + Cells(inner)
  }

  /** All counters around a writer, outermost first. */
  ghost function WriteCounters(w: Writer): seq<CounterId>
    reads Cells(w)
  {
    match w
    case PlainW(_) => []
    case CountedW(count, inner) => count.counters + WriteCounters(inner)
  }

  /** `Write` through any counters: each is called with the bytes that were taken. */
  method Write(w: Writer, p: seq<byte>, led: Ledger) returns (n: nat, err: Option<Error>)
    modifies SinkOf(w), led
    ensures (n, err, SinkOf(w).script) == Accept(old(SinkOf(w).script), |p|)
    ensures n <= |p| && SinkOf(w).received == old(SinkOf(w).received) + p[..n]
    ensures SinkOf(w).handshake == old(SinkOf(w).handshake)
    ensures forall c: CounterId :: led.totals(c) == old(led.totals)(c) + Charge(n, WriteCounters(w), c)
    decreases w
  {
    match w
    case PlainW(sink) =>
      n, err := sink.Write(p);
      assert forall c: CounterId :: Charge(n, [], c) == 0;
    case CountedW(count, inner) =>
      ghost var outer, rest := count.counters, WriteCounters(inner);
      assert allocated(Cells(inner)) && allocated(SinkOf(inner));
      n, err := Write(inner, p, led);
      Tell(count, n, led);
      ChargeConcatAll(n, outer, rest);
      assert WriteCounters(w) == outer + rest;
  }

  /** A wrapper's loop over its counters, which it skips when nothing moved. */
  method Tell(count: WriteCell, n: nat, led: Ledger)
    modifies led
    ensures forall c: CounterId :: led.totals(c) == old(led.totals)(c) + Charge(n, count.counters, c)
  {
    if n > 0 {
      led.Call(count.counters, n);
    } else {
      assert forall c: CounterId :: Charge(0, count.counters, c) == 0;
    }
  }

  lemma ChargeConcatAll(n: int, cs: seq<CounterId>, ds: seq<CounterId>)
    ensures forall c: CounterId :: Charge(n, cs + ds, c) == Charge(n, cs, c) + Charge(n, ds, c)
  {
    forall c: CounterId
      ensures Charge(n, cs + ds, c) == Charge(n, cs, c) + Charge(n, ds, c)
    {
      ChargeConcat(n, cs, ds, c);
    }
  }

  /** UnwrapWriterCounter on the package's writers. */
  method UnwrapWriterCounter(w: Writer) returns (base: Writer, counters: seq<CounterId>)
    ensures base == PlainW(SinkOf(w)) && counters == WriteCounters(w)
  {
    base, counters := w, [];
    assert [] + WriteCounters(w) == WriteCounters(w);
    while base.CountedW?
      invariant SinkOf(base) == SinkOf(w) && WriteCounters(w) == counters + WriteCounters(base)
      decreases base
    {
      ghost var before := counters;
      counters := counters + base.count.counters;
      assert before + (base.count.counters + WriteCounters(base.inner)) == counters + WriteCounters(base.inner);
      base := base.inner;
    }
    assert counters + [] == counters;
  }

  /** NewWriter; an existing counting writer is extended in place, behind its own counters. From
      plain writers this never stacks one counting writer on another. */
  method NewWriter(w: Writer, counters: seq<CounterId>) returns (c: Writer)
    modifies if w.CountedW? then {w.count} else {}
    ensures SinkOf(c) == SinkOf(w)
    ensures w.CountedW? ==> c == w && w.count.counters == old(w.count.counters) + counters
    ensures w.CountedW? && w.count !in Cells(w.inner) ==>
      WriteCounters(c) == old(w.count.counters) + counters + old(WriteCounters(w.inner))
    ensures w.PlainW? ==> WriteCounters(c) == counters && (counters != [] ==> c.CountedW? && c.inner == w)
  {
    if |counters| == 0 {
      assert w.CountedW? ==> w.count.counters + counters == w.count.counters;
      return w;
    }
    if w.CountedW? {
      assert allocated(Cells(w.inner));
      w.count.counters := w.count.counters + counters;
      return w;
    }
    var base, extra := UnwrapWriterCounter(w);
    var all := counters;
    if |extra| > 0 {
      all := extra + counters;
    }
    var count := new WriteCell(all);
    c := CountedW(count, base);
  }

  // ---------------------------------------------------------------- the read and write loop

  /** One pass of the loop: a read, and a write of what it got. */
  method CopyOnce(dst: Writer, src: Reader, max: nat, led: Ledger, alloc: Allocator)
    returns (got: seq<byte>, nw: nat, readErr: Option<Error>, writeErr: Option<Error>)
    requires Valid(src) && !src.NoReader? && alloc.Valid() && LiveStores(src) !! alloc.Pooled()
    modifies Touched(src), SinkOf(dst), led, alloc
    ensures Valid(src) && alloc.Valid() && LiveStores(src) !! alloc.Pooled()
    ensures (got, readErr, Abs(src)) == ReadStep(old(Abs(src)), max)
    ensures nw <= |got| && SinkOf(dst).received == old(SinkOf(dst).received) + got[..nw]
    ensures got == [] ==> nw == 0 && writeErr == None && SinkOf(dst).script == old(SinkOf(dst).script)
    ensures got != [] ==> (nw, writeErr, SinkOf(dst).script) == Accept(old(SinkOf(dst).script), |got|)
    ensures SinkOf(dst).handshake == old(SinkOf(dst).handshake)
    ensures forall c: CounterId ::
      led.totals(c) == old(led.totals)(c) + ReadCharge(old(Abs(src)), max, c) + Charge(nw, WriteCounters(dst), c)
  {
    hide *;
    Parts(src);
    ChargeNothing(WriteCounters(dst));
    nw, writeErr := 0, None;
    assert allocated(SinkOf(dst)) && allocated(Cells(dst));
    got, readErr := Read(src, max, led, alloc);
    ghost var shape, stores := Abs(src), LiveStores(src);
    assert allocated(Objects(src));
    if |got| > 0 {
      nw, writeErr := Write(dst, got, led);
    }
    assert Valid(src) && Abs(src) == shape && LiveStores(src) == stores;
  }

  lemma ChargeNothing(cs: seq<CounterId>)
    ensures forall c: CounterId :: Charge(0, cs, c) == 0
  {
  }

  /** So far the destination received the first `n` bytes of `all`; `todo` is still to come. */
  ghost predicate Progress(received: seq<byte>, now: seq<byte>, all: seq<byte>, n: nat, todo: seq<byte>) {
    n <= |all| && now == received + all[..n] && all == all[..n] + todo
  }

  lemma ProgressStart(received: seq<byte>, all: seq<byte>)
    ensures Progress(received, received, all, 0, all)
  {
  }

  /** The next `got` came off what was to come, and the destination took `k` bytes of it. */
  lemma ProgressStep(received: seq<byte>, mid: seq<byte>, now: seq<byte>, all: seq<byte>, n: nat,
                     before: seq<byte>, got: seq<byte>, err: Option<Error>, after: seq<byte>, k: nat)
    requires Progress(received, mid, all, n, before) && Took(before, got, err, after)
    requires k <= |got| && now == mid + got[..k]
    ensures n + k <= |all| && now == received + all[..n + k]
    ensures k == |got| ==> Progress(received, now, all, n + k, if err.None? then after else [])
  {
    var taken := all[..n];
    ConcatAssoc(received, taken, got[..k]);
    if err.None? {
      ConcatAssoc(taken, got, after);
    }
    assert taken + got[..k] == all[..n + k];
    if k == |got| {
      assert got[..k] == got;
      assert all[..n + k] + [] == all[..n + k];
    }
  }

  lemma ProgressEnd(received: seq<byte>, now: seq<byte>, all: seq<byte>, n: nat)
    requires Progress(received, now, all, n, [])
    ensures n == |all| && now == received + all[..n]
  {
  }

  lemma ChargeAddAll(a: int, b: int, cs: seq<CounterId>)
    ensures forall c: CounterId :: Charge(a + b, cs, c) == Charge(a, cs, c) + Charge(b, cs, c)
  {
    forall c: CounterId
      ensures Charge(a + b, cs, c) == Charge(a, cs, c) + Charge(b, cs, c)
    {
      ChargeAdd(a, b, cs, c);
    }
  }

  /** Since `before` every counter was told what `below` says, `m` bytes for each place among the
      readers and `n` for each place among the writers. */
  ghost predicate Told(before: CounterId -> int, after: CounterId -> int, below: CounterId -> int,
      m: nat, readers: seq<CounterId>, n: nat, writers: seq<CounterId>)
  {
    forall c: CounterId :: after(c) == before(c) + below(c) + Charge(m, readers, c) + Charge(n, writers, c)
  }

  function Nobody(): CounterId -> int { (c: CounterId) => 0 }

  lemma ToldNothing(t: CounterId -> int, readers: seq<CounterId>, writers: seq<CounterId>)
    ensures Told(t, t, Nobody(), 0, readers, 0, writers)
  {
    ChargeAddAll(0, 0, readers);
    ChargeAddAll(0, 0, writers);
  }

  lemma BaseIsThere(src: Reader)
    requires Valid(src) && !NilBased(Abs(src))
    ensures !src.NoReader?
  {
  }

  lemma ToldThen(t0: CounterId -> int, t1: CounterId -> int, t2: CounterId -> int,
                 b1: CounterId -> int, b2: CounterId -> int, b: CounterId -> int,
                 m1: nat, m2: nat, readers: seq<CounterId>, n1: nat, n2: nat, writers: seq<CounterId>)
    requires Told(t0, t1, b1, m1, readers, n1, writers) && Told(t1, t2, b2, m2, readers, n2, writers)
    requires forall c: CounterId :: b(c) == b1(c) + b2(c)
    ensures Told(t0, t2, b, m1 + m2, readers, n1 + n2, writers)
  {
    ChargeAddAll(m1, m2, readers);
    ChargeAddAll(n1, n2, writers);
  }

  lemma NobodyToo(b: CounterId -> int)
    ensures forall c: CounterId :: b(c) == b(c) + Nobody()(c) == Nobody()(c) + b(c)
  {
  }

  lemma ToldReaders(t0: CounterId -> int, t1: CounterId -> int, m: nat, readers: seq<CounterId>, writers: seq<CounterId>)
    requires forall c: CounterId :: t1(c) == t0(c) + Charge(m, readers, c)
    ensures Told(t0, t1, Nobody(), m, readers, 0, writers)
  {
    ChargeAddAll(0, 0, writers);
  }

  lemma ToldWriters(t0: CounterId -> int, t1: CounterId -> int, n: nat, readers: seq<CounterId>, writers: seq<CounterId>)
    requires forall c: CounterId :: t1(c) == t0(c) + Charge(n, writers, c)
    ensures Told(t0, t1, Nobody(), 0, readers, n, writers)
  {
    ChargeAddAll(0, 0, readers);
  }

  lemma ToldBelow(t0: CounterId -> int, t1: CounterId -> int, below: CounterId -> int,
                  readers: seq<CounterId>, writers: seq<CounterId>)
    requires forall c: CounterId :: t1(c) == t0(c) + below(c)
    ensures Told(t0, t1, below, 0, readers, 0, writers)
  {
    ChargeAddAll(0, 0, readers);
    ChargeAddAll(0, 0, writers);
  }

  /** The loop has told so much that the rest of it, from `s` on, makes up the whole from `s0` on. */
  ghost predicate Owes(t0: CounterId -> int, t: CounterId -> int, whole: CounterId -> int, rest: CounterId -> int,
      n: nat, writers: seq<CounterId>)
  {
    forall c: CounterId :: t(c) + rest(c) == t0(c) + whole(c) + Charge(n, writers, c)
  }

  lemma OwesAll(t: CounterId -> int, whole: CounterId -> int, writers: seq<CounterId>)
    ensures Owes(t, t, whole, whole, 0, writers)
  {
    ChargeNothing(writers);
  }

  /** One pass. */
  lemma OwesStep(t0: CounterId -> int, t1: CounterId -> int, t2: CounterId -> int, whole: CounterId -> int,
                 s: Shape, script: seq<WriteReply>, max: nat, n: nat, nw: nat, writers: seq<CounterId>)
    requires !NilBased(s) && 0 < max && Owes(t0, t1, whole, LoopBelow(s, script, max), n, writers)
    requires forall c: CounterId :: t2(c) == t1(c) + ReadCharge(s, max, c) + Charge(nw, writers, c)
    ensures var (got, readErr, rest) := ReadStep(s, max);
      var (k, e, script') := Accept(script, |got|);
      && !NilBased(rest)
      && (LastPass(got, readErr, k, e) ==> forall c: CounterId :: t2(c) == t0(c) + whole(c) + Charge(n + nw, writers, c))
      && (!LastPass(got, readErr, k, e) ==>
           Owes(t0, t2, whole, LoopBelow(rest, if got == [] then script else script', max), n + nw, writers))
  {
    hide LoopCharge, ReadStep, ReadCharge, NilBased, LastPass;
    LoopStep(s, script, max);
    ChargeAddAll(n, nw, writers);
  }

  /** One pass of the loop on a chain with a source. */
  method CopyPass(dst: Writer, src: Reader, max: nat, led: Ledger, alloc: Allocator)
    returns (got: seq<byte>, nw: nat, readErr: Option<Error>, writeErr: Option<Error>)
    requires 0 < max && Valid(src) && !NilBased(Abs(src)) && alloc.Valid() && LiveStores(src) !! alloc.Pooled()
    modifies Touched(src), SinkOf(dst), led, alloc
    ensures Valid(src) && !NilBased(Abs(src)) && alloc.Valid() && LiveStores(src) !! alloc.Pooled()
    ensures (got, readErr, Abs(src)) == ReadStep(old(Abs(src)), max)
    ensures nw <= |got| && SinkOf(dst).received == old(SinkOf(dst).received) + got[..nw]
    ensures got == [] ==> nw == 0 && writeErr == None && SinkOf(dst).script == old(SinkOf(dst).script)
    ensures got != [] ==> (nw, writeErr, SinkOf(dst).script) == Accept(old(SinkOf(dst).script), |got|)
    ensures WriteCounters(dst) == old(WriteCounters(dst))
    ensures forall c: CounterId ::
      led.totals(c) == old(led.totals)(c) + ReadCharge(old(Abs(src)), max, c) + Charge(nw, old(WriteCounters(dst)), c)
  {
    hide *;
    ghost var s0, w := Abs(src), WriteCounters(dst);
    PassFacts(s0, max);
    BaseIsThere(src);
    Parts(src);
    assert allocated(Cells(dst));
    got, nw, readErr, writeErr := CopyOnce(dst, src, max, led, alloc);
    assert WriteCounters(dst) == w;
  }

  /** io.CopyBuffer between a reader without WriterTo and a writer without ReaderFrom. What arrives,
      where it fails and what is left of the destination's script is Pump's; `m` counts the bytes read.
      The chain is left, and its counters are told, as by the reads of the loop. */
  method CopyBuffer(dst: Writer, src: Reader, max: nat, led: Ledger, alloc: Allocator)
    returns (n: nat, err: Option<Error>, ghost m: nat)
    requires 0 < max && Valid(src) && !NilBased(Abs(src)) && alloc.Valid() && LiveStores(src) !! alloc.Pooled()
    modifies Touched(src), SinkOf(dst), led, alloc
    ensures Valid(src) && !NilBased(Abs(src)) && alloc.Valid() && LiveStores(src) !! alloc.Pooled()
    ensures Abs(src) == LoopRun(old(Abs(src)), old(SinkOf(dst).script), max).2
    ensures n <= |Unread(old(Abs(src)))|
    ensures SinkOf(dst).received == old(SinkOf(dst).received) + Unread(old(Abs(src)))[..n]
    ensures var d := Pump(old(SinkOf(dst).script), Pieces(old(Abs(src)), max));
      && n == d.n && m == d.told && SinkOf(dst).script == d.rest
      && err == if d.err.Some? then d.err else if EndOf(old(Abs(src))) == EOF then None else Some(EndOf(old(Abs(src))))
    ensures forall c: CounterId ::
      led.totals(c) == old(led.totals)(c) + LoopBelow(old(Abs(src)), old(SinkOf(dst).script), max)(c) + Charge(n, old(WriteCounters(dst)), c)
  {
    hide *;
    ghost var all, end, t0, w := Unread(Abs(src)), EndOf(Abs(src)), led.totals, WriteCounters(dst);
    ghost var received, whole := SinkOf(dst).received, Pump(SinkOf(dst).script, Pieces(Abs(src), max));
    ghost var run, below := LoopRun(Abs(src), SinkOf(dst).script, max), LoopBelow(Abs(src), SinkOf(dst).script, max);
    n, m := 0, 0;
    OwesAll(t0, below, w);
    ProgressStart(received, all);
    BeyondNothing(whole);
    while true
      invariant Valid(src) && !NilBased(Abs(src)) && alloc.Valid() && LiveStores(src) !! alloc.Pooled()
      invariant n == m && WriteCounters(dst) == w
      invariant Progress(received, SinkOf(dst).received, all, n, Unread(Abs(src)))
      invariant whole == Beyond(n, Pump(SinkOf(dst).script, Pieces(Abs(src), max)))
      invariant EndOf(Abs(src)) == end && run.2 == LoopRun(Abs(src), SinkOf(dst).script, max).2
      invariant Owes(t0, led.totals, below, LoopBelow(Abs(src), SinkOf(dst).script, max), n, w)
      decreases Work(Abs(src))
    {
      ghost var s, script, mid, t1 := Abs(src), SinkOf(dst).script, SinkOf(dst).received, led.totals;
      PassFacts(s, max);
      PumpStep(script, s, max);
      LoopStep(s, script, max);
      var got, nw, readErr, writeErr := CopyPass(dst, src, max, led, alloc);
      BeyondFurther(n, nw, Pump(SinkOf(dst).script, Pieces(Abs(src), max)));
      BeyondEnd(n, nw, SinkOf(dst).script);
      BeyondFailure(n, nw, writeErr, |got|, SinkOf(dst).script);
      OwesStep(t0, t1, led.totals, below, s, script, max, n, nw, w);
      LastPassIs(got, readErr, Accept(script, |got|).0, Accept(script, |got|).1);
      ProgressStep(received, mid, SinkOf(dst).received, all, n, Unread(s), got, readErr, Unread(Abs(src)), nw);
      n, m := n + nw, m + |got|;
      if writeErr.Some? {
        return n, writeErr, m;
      }
      if nw != |got| {
        return n, Some(Error.ShortWrite), m;
      }
      if readErr.Some? {
        ProgressEnd(received, SinkOf(dst).received, all, n);
        err := if readErr.value == EOF then None else readErr;
        return;
      }
    }
  }

  lemma LastPassIs(got: seq<byte>, readErr: Option<Error>, k: nat, e: Option<Error>)
    ensures LastPass(got, readErr, k, e) <==> readErr.Some? || (got != [] && (e.Some? || k < |got|))
  {
  }

  lemma BeyondNothing(d: Delivery)
    ensures Beyond(0, d) == d
  {
  }

  lemma BeyondFurther(n: nat, k: nat, d: Delivery)
    ensures Beyond(n, Beyond(k, d)) == Beyond(n + k, d)
  {
  }

  lemma BeyondEnd(n: nat, k: nat, rest: seq<WriteReply>)
    ensures Beyond(n, Beyond(k, Delivery(0, None, 0, rest))) == Delivery(n + k, None, n + k, rest)
    ensures Beyond(n, Delivery(0, None, 0, rest)) == Delivery(n, None, n, rest)
  {
  }

  lemma BeyondFailure(n: nat, k: nat, err: Option<Error>, told: nat, rest: seq<WriteReply>)
    ensures Beyond(n, Delivery(k, err, told, rest)) == Delivery(n + k, err, n + told, rest)
    ensures Beyond(n, Delivery(k, Some(Error.ShortWrite), told, rest)) == Delivery(n + k, Some(Error.ShortWrite), n + told, rest)
  {
  }

  // ---------------------------------------------------------------- the cached bytes

  /** The buffers from `k` on still wait to be written out; their arrays are in no pool. */
  ghost predicate Unwritten(bs: seq<Buffer>, k: nat, contents: seq<seq<byte>>, base: Reader, pooled: set<array<byte>>)
    reads (set b | b in bs), (set b | b in bs :: b.store)
  {
    && k <= |bs| == |contents|
    && (forall j :: k <= j < |bs| ==>
         && Apart(bs[j], base) && bs[j].live && bs[j].Contents() == contents[j] != []
         && bs[j].store !in pooled)
    && (forall i, j :: 0 <= i < j < |bs| ==> bs[i] != bs[j] && bs[i].store != bs[j].store)
  }

  /** The first `k` buffers are freed, as far as nobody else holds them: their arrays are back. */
  ghost predicate Freed(bs: seq<Buffer>, k: nat, pooled: set<array<byte>>)
    reads set b | b in bs
  {
    && k <= |bs|
    && (forall j :: 0 <= j < k && bs[j].ref <= 0 ==>
         !bs[j].live && (bs[j].managed && 0 < bs[j].len ==> bs[j].store in pooled))
  }

  lemma SinkApart(r: Reader, sink: Sink)
    ensures Touched(r) <= Objects(r) && sink !in Objects(r)
  {
    Parts(r);
  }

  /** Writes one picked buffer out, tells the counters, and frees it. */
  method WriteCache(sink: Sink, b: Buffer, ghost bs: seq<Buffer>, ghost k: nat, ghost contents: seq<seq<byte>>,
      base: Reader, readers: seq<CounterId>, writers: seq<CounterId>, led: Ledger, alloc: Allocator)
    returns (n: nat, err: Option<Error>)
    requires k < |bs| && b == bs[k] && Unwritten(bs, k, contents, base, alloc.Pooled()) && Freed(bs, k, alloc.Pooled())
    requires Valid(base) && alloc.Valid() && LiveStores(base) !! alloc.Pooled()
    modifies sink, led, alloc, b`r, b`live
    ensures Valid(base) && Abs(base) == old(Abs(base)) && alloc.Valid() && LiveStores(base) !! alloc.Pooled()
    ensures Unwritten(bs, k + 1, contents, base, alloc.Pooled()) && Freed(bs, k + 1, alloc.Pooled())
    ensures 0 < |contents[k]| && n <= |contents[k]| && sink.received == old(sink.received) + contents[k][..n]
    ensures Drained(|contents[k]| - n, err, sink.script) == Drain(old(sink.script), |contents[k]|, 0)
    ensures err.None? ==> n == |contents[k]|
    ensures err.None? ==> Told(old(led.totals), led.totals, Nobody(), n, readers, n, writers)
    ensures err.Some? ==> led.totals == old(led.totals)
    ensures sink.handshake == old(sink.handshake)
  {
    hide *;
    ghost var pooled := alloc.Pooled();
    StoreIsFree(bs, k, contents, base, pooled);
    n, err := PushCache(sink, b, bs, k, contents, base, pooled);
    SinkApart(base, sink);
    Parts(base);
    assert allocated(Objects(base));
    ghost var shape, stores := Abs(base), LiveStores(base);
    if err.None? {
      TellAll(led, n, readers, writers);
    }
    assert Valid(base) && Abs(base) == shape && LiveStores(base) == stores;
    FreeOne(b, bs, k, contents, base, alloc);
  }

  lemma StoreIsFree(bs: seq<Buffer>, k: nat, contents: seq<seq<byte>>, base: Reader, pooled: set<array<byte>>)
    requires k < |bs| && Unwritten(bs, k, contents, base, pooled)
    ensures bs[k].live && bs[k].store !in pooled && k < |contents| && 0 < |contents[k]|
  {
  }

  /** The calls of all outer counters for the bytes of one buffer. */
  method TellAll(led: Ledger, n: nat, readers: seq<CounterId>, writers: seq<CounterId>)
    modifies led
    ensures Told(old(led.totals), led.totals, Nobody(), n, readers, n, writers)
  {
    led.Call(readers, n);
    led.Call(writers, n);
  }

  method PushCache(sink: Sink, b: Buffer, ghost bs: seq<Buffer>, ghost k: nat, ghost contents: seq<seq<byte>>,
      base: Reader, ghost pooled: set<array<byte>>)
    returns (n: nat, err: Option<Error>)
    requires k < |bs| && b == bs[k] && Unwritten(bs, k, contents, base, pooled) && Freed(bs, k, pooled) && Valid(base)
    modifies sink, b`r
    ensures Valid(base) && Abs(base) == old(Abs(base)) && LiveStores(base) == old(LiveStores(base))
    ensures Unwritten(bs, k + 1, contents, base, pooled) && Freed(bs, k, pooled) && Apart(b, base)
    ensures 0 < |contents[k]| && n <= |contents[k]| && sink.received == old(sink.received) + contents[k][..n]
    ensures Drained(|contents[k]| - n, err, sink.script) == Drain(old(sink.script), |contents[k]|, 0)
    ensures err.None? ==> n == |contents[k]|
    ensures sink.handshake == old(sink.handshake)
  {
    hide Drain, Valid, Abs, LiveStores, Objects, PutClass;
    n, err := PushBeside(sink, b, base);
  }

  /** Writing out a buffer that is no part of a chain does not touch the chain. */
  method PushBeside(sink: Sink, b: Buffer, base: Reader) returns (n: nat, err: Option<Error>)
    requires Apart(b, base) && b.live && b.Contents() != [] && Valid(base)
    modifies sink, b`r
    ensures Valid(base) && Abs(base) == old(Abs(base)) && LiveStores(base) == old(LiveStores(base))
    ensures b.Usable() && n <= |old(b.Contents())| && sink.received == old(sink.received) + old(b.Contents())[..n]
    ensures Drained(|old(b.Contents())| - n, err, sink.script) == Drain(old(sink.script), |old(b.Contents())|, 0)
    ensures err.None? ==> n == |old(b.Contents())|
    ensures sink.handshake == old(sink.handshake)
  {
    Parts(base);
    assert allocated(Objects(base));
    ghost var shape, stores := Abs(base), LiveStores(base);
    n, err := b.WriteTo(sink);
    assert Valid(base) && Abs(base) == shape && LiveStores(base) == stores;
  }

  lemma FlattenFrom(contents: seq<seq<byte>>, i: nat)
    requires i < |contents|
    ensures Flatten(contents[i..]) == contents[i] + Flatten(contents[i + 1..])
  {
    assert contents[i..][1..] == contents[i + 1..];
  }

  /** The loop of copyEarly over the picked buffers, as Caches says; `told` is what the counters were
      told. Whether it fails or not, every buffer is freed that nobody else holds. */
  method WriteCaches(sink: Sink, bs: seq<Buffer>, ghost contents: seq<seq<byte>>,
      base: Reader, readers: seq<CounterId>, writers: seq<CounterId>, led: Ledger, alloc: Allocator)
    returns (n: nat, err: Option<Error>, ghost told: nat)
    requires Unwritten(bs, 0, contents, base, alloc.Pooled())
    requires Valid(base) && alloc.Valid() && LiveStores(base) !! alloc.Pooled()
    modifies sink, led, alloc, (set b | b in bs)`r, (set b | b in bs)`live
    ensures Valid(base) && Abs(base) == old(Abs(base)) && alloc.Valid() && LiveStores(base) !! alloc.Pooled()
    ensures n <= |Flatten(contents)| && sink.received == old(sink.received) + Flatten(contents)[..n]
    ensures AllPositive(Lens(contents)) && Delivery(n, err, told, sink.script) == Caches(old(sink.script), Lens(contents))
    ensures Told(old(led.totals), led.totals, Nobody(), told, readers, told, writers)
    ensures sink.handshake == old(sink.handshake)
    ensures forall b :: b in bs && b.ref <= 0 ==> !b.live && (b.managed && 0 < b.len ==> b.store in alloc.Pooled())
  {
    hide *;
    ghost var all, received, t0 := Flatten(contents), sink.received, led.totals;
    ghost var shape := Abs(base);
    UnwrittenBounds(bs, contents, base, alloc.Pooled());
    ghost var whole := Caches(sink.script, Lens(contents));
    n, err, told := 0, None, 0;
    ToldNothing(t0, readers, writers);
    NobodyToo(Nobody());
    ProgressStart(received, all);
    BeyondNothing(whole);
    assert contents[0..] == contents;
    FreedNothing(bs, alloc.Pooled());
    var i := 0;
    while i < |bs|
      invariant 0 <= i <= |bs| == |contents| && Unwritten(bs, i, contents, base, alloc.Pooled()) && Freed(bs, i, alloc.Pooled())
      invariant Valid(base) && Abs(base) == shape && alloc.Valid() && LiveStores(base) !! alloc.Pooled()
      invariant n == told && err.None? && Progress(received, sink.received, all, n, Flatten(contents[i..]))
      invariant AllPositive(Lens(contents[i..])) && whole == Beyond(n, Caches(sink.script, Lens(contents[i..])))
      invariant Told(t0, led.totals, Nobody(), told, readers, told, writers)
      invariant sink.handshake == old(sink.handshake)
    {
      FlattenFrom(contents, i);
      ghost var mid, t1, script := sink.received, led.totals, sink.script;
      CachesStep(script, contents, i);
      var to;
      to, err := WriteCache(sink, bs[i], bs, i, contents, base, readers, writers, led, alloc);
      BeyondFurther(n, to, Caches(sink.script, Lens(contents[i + 1..])));
      BeyondFailure(n, to, err, 0, sink.script);
      ProgressStep(received, mid, sink.received, all, n, Flatten(contents[i..]), contents[i], None, Flatten(contents[i + 1..]), to);
      n := n + to;
      i := i + 1;
      if err.Some? {
        FreeRest(bs, i, contents, base, alloc);
        AllFreed(bs, alloc.Pooled());
        return;
      }
      ToldThen(t0, t1, led.totals, Nobody(), Nobody(), Nobody(), told, to, readers, told, to, writers);
      told := told + to;
    }
    FlattenEnd(contents, i);
    BeyondEnd(n, 0, sink.script);
    ProgressEnd(received, sink.received, all, n);
    AllFreed(bs, alloc.Pooled());
  }

  /** One pass of that loop. */
  lemma CachesStep(script: seq<WriteReply>, contents: seq<seq<byte>>, i: nat)
    requires i < |contents| && AllPositive(Lens(contents[i..]))
    ensures AllPositive(Lens(contents[i + 1..])) && 0 < |contents[i]|
    ensures var d := Drain(script, |contents[i]|, 0);
      Caches(script, Lens(contents[i..])) ==
        if d.err.Some? then Delivery(|contents[i]| - d.left, d.err, 0, d.rest)
        else Beyond(|contents[i]|, Caches(d.rest, Lens(contents[i + 1..])))
  {
    assert contents[i..][1..] == contents[i + 1..];
    var lens := Lens(contents[i..]);
    assert lens[1..] == Lens(contents[i + 1..]) && lens[0] == |contents[i]|;
    forall j | 0 <= j < |lens[1..]|
      ensures 0 < lens[1..][j]
    {
      assert lens[1..][j] == lens[j + 1];
    }
  }

  lemma FreedNothing(bs: seq<Buffer>, pooled: set<array<byte>>)
    ensures Freed(bs, 0, pooled)
  {
  }

  lemma AllFreed(bs: seq<Buffer>, pooled: set<array<byte>>)
    requires Freed(bs, |bs|, pooled)
    ensures forall b :: b in bs && b.ref <= 0 ==> !b.live && (b.managed && 0 < b.len ==> b.store in pooled)
  {
  }

  lemma UnwrittenBounds(bs: seq<Buffer>, contents: seq<seq<byte>>, base: Reader, pooled: set<array<byte>>)
    requires Unwritten(bs, 0, contents, base, pooled)
    ensures |bs| == |contents| && AllPositive(Lens(contents))
  {
    forall i | 0 <= i < |contents|
      ensures contents[i] != []
    {
      assert bs[i].Contents() == contents[i];
    }
    LensPositive(contents);
  }

  lemma FlattenEnd(contents: seq<seq<byte>>, i: nat)
    requires i == |contents|
    ensures Flatten(contents[i..]) == [] && AllPositive(Lens(contents[i..]))
    ensures forall script :: Caches(script, Lens(contents[i..])) == Delivery(0, None, 0, script)
  {
  }

  /** The deferred clean-up after a failed write. */
  method FreeRest(bs: seq<Buffer>, from: nat, ghost contents: seq<seq<byte>>, base: Reader, alloc: Allocator)
    requires Unwritten(bs, from, contents, base, alloc.Pooled()) && Freed(bs, from, alloc.Pooled())
    requires from <= |bs| && Valid(base) && alloc.Valid() && LiveStores(base) !! alloc.Pooled()
    modifies alloc, (set b | b in bs)`live
    ensures Valid(base) && Abs(base) == old(Abs(base)) && alloc.Valid() && LiveStores(base) !! alloc.Pooled()
    ensures Freed(bs, |bs|, alloc.Pooled())
  {
    hide *;
    ghost var shape := Abs(base);
    for i := from to |bs|
      invariant Unwritten(bs, i, contents, base, alloc.Pooled()) && Freed(bs, i, alloc.Pooled())
      invariant Valid(base) && Abs(base) == shape && alloc.Valid() && LiveStores(base) !! alloc.Pooled()
    {
      SkipOne(bs, i, contents, base, alloc.Pooled());
      FreeOne(bs[i], bs, i, contents, base, alloc);
    }
  }

  lemma SkipOne(bs: seq<Buffer>, k: nat, contents: seq<seq<byte>>, base: Reader, pooled: set<array<byte>>)
    requires k < |bs| && Unwritten(bs, k, contents, base, pooled)
    ensures Unwritten(bs, k + 1, contents, base, pooled)
    ensures Apart(bs[k], base) && bs[k].live && bs[k].store !in pooled
  {
  }

  method FreeOne(b: Buffer, ghost bs: seq<Buffer>, ghost k: nat, ghost contents: seq<seq<byte>>,
      base: Reader, alloc: Allocator)
    requires k < |bs| && b == bs[k] && Unwritten(bs, k + 1, contents, base, alloc.Pooled()) && Freed(bs, k, alloc.Pooled())
    requires Apart(b, base) && b.live && b.store !in alloc.Pooled()
    requires Valid(base) && alloc.Valid() && LiveStores(base) !! alloc.Pooled()
    modifies alloc, b`live
    ensures Unwritten(bs, k + 1, contents, base, alloc.Pooled()) && Freed(bs, k + 1, alloc.Pooled())
    ensures Valid(base) && Abs(base) == old(Abs(base)) && alloc.Valid() && LiveStores(base) !! alloc.Pooled()
  {
    hide Valid, Abs, LiveStores, Objects, PutClass, Allocator.Pooled, Allocator.Valid;
    FreeBeside(b, base, alloc);
  }

  /** Freeing a buffer that is no part of a chain does not touch the chain. */
  method FreeBeside(b: Buffer, base: Reader, alloc: Allocator)
    requires Apart(b, base) && b.live && b.store !in alloc.Pooled()
    requires Valid(base) && alloc.Valid() && LiveStores(base) !! alloc.Pooled()
    modifies alloc, b`live
    ensures b.live == (0 < b.ref) && alloc.Valid()
    ensures alloc.Pooled() == old(alloc.Pooled()) + if b.ref <= 0 && b.managed && 0 < b.len then {b.store} else {}
    ensures Valid(base) && Abs(base) == old(Abs(base)) && LiveStores(base) !! alloc.Pooled()
  {
    Parts(base);
    LiveStoresAreParts(base);
    assert allocated(Objects(base));
    ghost var shape, stores := Abs(base), LiveStores(base);
    b.Free(alloc);
    assert Valid(base) && Abs(base) == shape && LiveStores(base) == stores;
  }

  // ---------------------------------------------------------------- the handshake

  /** The read for the handshake, and the calls of the outer read counters. */
  method ReadForHandshake(sink: Sink, src: Reader, readers: seq<CounterId>, ghost writers: seq<CounterId>,
      led: Ledger, alloc: Allocator)
    returns (got: seq<byte>, err: Option<Error>)
    requires Valid(src) && !NilBased(Abs(src)) && alloc.Valid() && LiveStores(src) !! alloc.Pooled()
    requires sink.handshake.WithBuffer?
    modifies Touched(src), led, alloc
    ensures Valid(src) && !NilBased(Abs(src)) && alloc.Valid() && LiveStores(src) !! alloc.Pooled()
    ensures (got, err, Abs(src)) == ReadStep(old(Abs(src)), BUFFER_SIZE)
    ensures if err.None? then Unread(old(Abs(src))) == got + Unread(Abs(src)) && EndOf(Abs(src)) == EndOf(old(Abs(src)))
            else Unread(old(Abs(src))) == got && err.value == EndOf(old(Abs(src)))
    ensures Told(old(led.totals), led.totals, ShakeBelow(sink.handshake, old(Abs(src))), |got|, readers, 0, writers)
    ensures unchanged(sink)
  {
    hide *;
    ghost var s0, t0 := Abs(src), led.totals;
    ReadForHandshakeFacts(s0);
    BaseIsThere(src);
    Parts(src);
    got, err := Read(src, BUFFER_SIZE, led, alloc);
    ghost var s1, t1, stores := Abs(src), led.totals, LiveStores(src);
    ghost var below := ShakeBelow(sink.handshake, s0);
    ShakeBelowIs(sink.handshake, s0);
    ToldBelow(t0, t1, below, readers, writers);
    assert allocated(Objects(src));
    led.Call(readers, |got|);
    assert Valid(src) && Abs(src) == s1 && LiveStores(src) == stores;
    ToldReaders(t1, led.totals, |got|, readers, writers);
    NobodyToo(below);
    ToldThen(t0, t1, led.totals, below, Nobody(), below, 0, |got|, readers, 0, 0, writers);
  }

  lemma ShakeBelowIs(h: Handshake, s: Shape)
    ensures forall c: CounterId :: ShakeBelow(h, s)(c) == if h.WithBuffer? then ReadCharge(s, BUFFER_SIZE, c) else Nobody()(c)
  {
  }

  /** The handshake itself, and the calls of the outer write counters. */
  method Consume(sink: Sink, src: Reader, bytes: seq<byte>, ghost readers: seq<CounterId>, writers: seq<CounterId>,
      led: Ledger, alloc: Allocator)
    returns (n: nat, err: Option<Error>)
    requires sink.handshake.WithBuffer?
    requires Valid(src) && alloc.Valid() && LiveStores(src) !! alloc.Pooled()
    modifies sink`received, sink`handshake, led
    ensures Valid(src) && Abs(src) == old(Abs(src)) && alloc.Valid() && LiveStores(src) !! alloc.Pooled()
    ensures n == Min(old(sink.handshake).n, |bytes|) && err == old(sink.handshake).err
    ensures sink.received == old(sink.received) + bytes[..n] && sink.handshake == NotNeeded
    ensures Told(old(led.totals), led.totals, Nobody(), 0, readers, n, writers)
  {
    Parts(src);
    ghost var shape, stores := Abs(src), LiveStores(src);
    assert allocated(Objects(src));
    n, err := sink.ShakeHands(bytes);
    led.Call(writers, n);
    assert Valid(src) && Abs(src) == shape && LiveStores(src) == stores;
    ToldWriters(old(led.totals), led.totals, n, readers, writers);
  }

  /** What the handshake leaves: nothing delivered when its read failed, otherwise what it consumed;
      and, when it went through, the chain behind what was read for it. */
  ghost predicate Shook(h: Handshake, s: Shape, before: seq<byte>, after: seq<byte>, n: nat, err: Option<Error>, rest: Shape)
  {
    var (s1, m, k) := Shaken(h, s);
    if ShakeFate(h, s).HandshakeReadFailed? then
      after == before && n == m && err == Some(Wrapped("handshake: read", EndOf(s)))
    else
      && n == k <= |Arriving(h, s)| && after == before + Arriving(h, s)[..k]
      && (if ShakeFate(h, s).Refused?
          then (h.Bare? || h.WithBuffer?) && h.err.Some?
            && err == Some(Wrapped(if h.Bare? then "handshake" else "handshake: write", h.err.value))
          else err == None && rest == s1 && Progress(before, after, Arriving(h, s), k, Unread(s1)))
  }

  lemma ShookWithoutBuffer(h: Handshake, s: Shape, before: seq<byte>, err: Option<Error>)
    requires !h.WithBuffer?
    requires err == if h.Bare? && h.err.Some? then Some(Wrapped("handshake", h.err.value)) else None
    ensures Shook(h, s, before, before, 0, err, s) && Shaken(h, s) == (s, 0, 0)
  {
    assert before + Arriving(h, s)[..0] == before;
  }

  lemma ShookReadFailed(h: Handshake, s: Shape, before: seq<byte>, rest: Shape)
    requires h.WithBuffer? && ReadStep(s, BUFFER_SIZE).1.Some?
    ensures Shook(h, s, before, before, |ReadStep(s, BUFFER_SIZE).0|, Some(Wrapped("handshake: read", EndOf(s))), rest)
    ensures ShakeFate(h, s).HandshakeReadFailed? && Shaken(h, s).1 == |ReadStep(s, BUFFER_SIZE).0|
    ensures Shaken(h, s).0 == ReadStep(s, BUFFER_SIZE).2
  {
  }

  lemma ShookByBuffer(h: Handshake, s: Shape, before: seq<byte>, after: seq<byte>, k: nat)
    requires h.WithBuffer? && ReadStep(s, BUFFER_SIZE).1.None?
    requires var (got, _, rest) := ReadStep(s, BUFFER_SIZE);
      Unread(s) == got + Unread(rest) && k == Min(h.n, |got|) && after == before + got[..k]
    ensures var err := if h.err.Some? then Some(Wrapped("handshake: write", h.err.value)) else None;
      Shook(h, s, before, after, k, err, ReadStep(s, BUFFER_SIZE).2)
    ensures Shaken(h, s) == (ReadStep(s, BUFFER_SIZE).2, |ReadStep(s, BUFFER_SIZE).0|, k) && !ShakeFate(h, s).HandshakeReadFailed?
  {
    ArrivingFacts(h, s, Unread(ReadStep(s, BUFFER_SIZE).2));
  }

  /** The handshake of copyEarly. */
  method Shake(sink: Sink, src: Reader, readers: seq<CounterId>, writers: seq<CounterId>, led: Ledger, alloc: Allocator)
    returns (n: nat, err: Option<Error>, ghost m: nat, ghost taken: nat)
    requires Valid(src) && !NilBased(Abs(src)) && alloc.Valid() && LiveStores(src) !! alloc.Pooled()
    modifies Touched(src), sink`received, sink`handshake, led, alloc
    ensures Valid(src) && !NilBased(Abs(src)) && alloc.Valid() && LiveStores(src) !! alloc.Pooled()
    ensures Abs(src) == Shaken(old(sink.handshake), old(Abs(src))).0
    ensures Shook(old(sink.handshake), old(Abs(src)), old(sink.received), sink.received, n, err, Abs(src))
    ensures m == Shaken(old(sink.handshake), old(Abs(src))).1
    ensures taken == if ShakeFate(old(sink.handshake), old(Abs(src))).HandshakeReadFailed? then 0 else n
    ensures Told(old(led.totals), led.totals, ShakeBelow(old(sink.handshake), old(Abs(src))), m, readers, taken, writers)
  {
    hide *;
    ghost var h, s0, t0, received := sink.handshake, Abs(src), led.totals, sink.received;
    n, err, m, taken := 0, None, 0, 0;
    ghost var below := ShakeBelow(h, s0);
    ShakeBelowIs(h, s0);
    NobodyToo(below);
    SinkApart(src, sink);
    assert allocated(Objects(src));
    if !sink.handshake.WithBuffer? {
      if sink.handshake.Bare? {
        ghost var stores := LiveStores(src);
        var k;
        k, err := sink.ShakeHands([]);
        assert Valid(src) && Abs(src) == s0 && LiveStores(src) == stores;
        assert received + [] == received;
        err := if err.Some? then Some(Wrapped("handshake", err.value)) else None;
      }
      ShookWithoutBuffer(h, s0, received, err);
      ToldBelow(t0, led.totals, below, readers, writers);
      return;
    }
    var bytes;
    bytes, err := ReadForHandshake(sink, src, readers, writers, led, alloc);
    m := |bytes|;
    if err.Some? {
      n, err := |bytes|, Some(Wrapped("handshake: read", err.value));
      ShookReadFailed(h, s0, received, Abs(src));
      return;
    }
    ghost var t1 := led.totals;
    n, err := Consume(sink, src, bytes, readers, writers, led, alloc);
    taken := n;
    ShookByBuffer(h, s0, received, sink.received, n);
    ToldThen(t0, t1, led.totals, below, Nobody(), below, m, 0, readers, 0, n, writers);
    err := if err.Some? then Some(Wrapped("handshake: write", err.value)) else None;
  }

  // ---------------------------------------------------------------- Copy

  lemma PickedAreUnwritten(bs: seq<Buffer>, s: Shape, base: Reader, all: set<object>, stores: set<array<byte>>, pooled: set<array<byte>>)
    requires Sound(s) && Picked(bs, Peel(s).1, base, all, stores) && stores !! pooled
    ensures Unwritten(bs, 0, Peel(s).1, base, pooled)
  {
    PeelKeepsUnread(s);
  }

  /** What peeling tells a copy about the chain it starts from. */
  lemma PeelFacts(s: Shape)
    requires Sound(s) && !NilBased(s)
    ensures var (base, contents) := Peel(s);
      && Unread(s) == Flatten(contents) + Unread(base) && EndOf(base) == EndOf(s)
      && !NilBased(base) && Sound(base) && AllPositive(Lens(contents))
  {
    PeelKeepsUnread(s);
    LensPositive(Peel(s).1);
  }

  /** PickReaderCacheList and the loop over what it picked. */
  method CopyCaches(sink: Sink, src: Reader, readers: seq<CounterId>, writers: seq<CounterId>, led: Ledger, alloc: Allocator)
    returns (n: nat, base: Reader, err: Option<Error>, ghost told: nat)
    requires Valid(src) && !NilBased(Abs(src)) && alloc.Valid() && LiveStores(src) !! alloc.Pooled()
    modifies Objects(src), sink, led, alloc
    ensures Valid(base) && !NilBased(Abs(base)) && alloc.Valid() && LiveStores(base) !! alloc.Pooled()
    ensures Objects(base) <= Objects(src)
    ensures Abs(base) == Peel(old(Abs(src))).0 && Picks(src, base, PeelDepth(old(Abs(src))))
    ensures EndOf(Abs(base)) == EndOf(old(Abs(src)))
    ensures Unread(old(Abs(src))) == Flatten(Peel(old(Abs(src))).1) + Unread(Abs(base))
    ensures n <= |Flatten(Peel(old(Abs(src))).1)|
    ensures sink.received == old(sink.received) + Flatten(Peel(old(Abs(src))).1)[..n]
    ensures AllPositive(Lens(Peel(old(Abs(src))).1))
    ensures Delivery(n, err, told, sink.script) == Caches(old(sink.script), Lens(Peel(old(Abs(src))).1))
    ensures err.None? ==> n == told == |Flatten(Peel(old(Abs(src))).1)|
    ensures Told(old(led.totals), led.totals, Nobody(), told, readers, told, writers)
  {
    hide *;
    ghost var s0, stores := Abs(src), LiveStores(src);
    AbsIsSound(src);
    PeelFacts(s0);
    Parts(src);
    PeeledParts(src);
    LensOfFlatten(Peel(s0).1);
    CachesDeliver(sink.script, Lens(Peel(s0).1));
    var bs;
    base, bs := PickReaderCacheList(src);
    PickedAreUnwritten(bs, s0, base, Objects(src), stores, alloc.Pooled());
    PickedInside(bs, Peel(s0).1, base, Objects(src), stores);
    ghost var k := PeelDepth(s0);
    PicksApart(src, base, k);
    assert allocated(Above(src, k));
    n, err, told := WriteCaches(sink, bs, Peel(s0).1, base, readers, writers, led, alloc);
  }

  lemma PickedInside(bs: seq<Buffer>, contents: seq<seq<byte>>, base: Reader, all: set<object>, stores: set<array<byte>>)
    requires Picked(bs, contents, base, all, stores)
    ensures forall b :: b in bs ==> b in all
  {
  }

  /** What the loop on the counted chain tells, in terms of the chain and its new counters. */
  lemma AddedLoop(s: Shape, readers: seq<CounterId>, script: seq<WriteReply>, t0: CounterId -> int, t1: CounterId -> int,
                  n: nat, writers: seq<CounterId>)
    requires !NilBased(s) && !s.SNone? && !NilBased(AddCounters(s, readers)) && 0 < HUGE_SIZE
    requires forall c: CounterId ::
      t1(c) == t0(c) + LoopBelow(AddCounters(s, readers), script, HUGE_SIZE)(c) + Charge(n, writers, c)
    ensures Told(t0, t1, LoopBelow(s, script, HUGE_SIZE), Pump(script, Pieces(s, HUGE_SIZE)).told, readers, n, writers)
    ensures var (got, err, rest) := LoopRun(s, script, HUGE_SIZE);
      LoopRun(AddCounters(s, readers), script, HUGE_SIZE).2 ==
        if s.SCounted? || readers == [] then Extended(rest, readers) else SCounted(readers, rest)
    ensures LoopRun(s, script, HUGE_SIZE).2.SCounted? == s.SCounted?
  {
    hide ReadRun, RunCharge, Reads, Pieces, Pump, NilBased;
    var lens := Times(Reads(s, script, HUGE_SIZE), HUGE_SIZE);
    ReadsOfAdded(s, readers, script, HUGE_SIZE);
    LoopReadsWhatItTells(s, script, HUGE_SIZE);
    NotCounted(s, lens);
    AddedRun(s, readers, lens, 0);
    forall c: CounterId
      ensures LoopCharge(AddCounters(s, readers), script, HUGE_SIZE, c) ==
        LoopCharge(s, script, HUGE_SIZE, c) + Charge(|LoopRun(s, script, HUGE_SIZE).0|, readers, c)
    {
      AddedRun(s, readers, lens, c);
    }
  }

  /** copyGeneric. A counting source is extended in place. */
  method CopyGeneric(sink: Sink, src: Reader, writers: seq<CounterId>, readers: seq<CounterId>, led: Ledger, alloc: Allocator)
    returns (n: nat, err: Option<Error>, ghost m: nat)
    requires Valid(src) && !NilBased(Abs(src)) && alloc.Valid() && LiveStores(src) !! alloc.Pooled()
    modifies Objects(src), sink, led, alloc
    ensures Valid(src) && !NilBased(Abs(src)) && alloc.Valid() && LiveStores(src) !! alloc.Pooled()
    ensures 0 < HUGE_SIZE
    ensures Abs(src) == Extended(LoopRun(old(Abs(src)), old(sink.script), HUGE_SIZE).2, readers)
    ensures n <= |Unread(old(Abs(src)))|
    ensures sink.received == old(sink.received) + Unread(old(Abs(src)))[..n]
    ensures var d := Pump(old(sink.script), Pieces(old(Abs(src)), HUGE_SIZE));
      && n == d.n && m == d.told && sink.script == d.rest
      && err == if d.err.Some? then d.err else if EndOf(old(Abs(src))) == EOF then None else Some(EndOf(old(Abs(src))))
    ensures Told(old(led.totals), led.totals, LoopBelow(old(Abs(src)), old(sink.script), HUGE_SIZE), m, readers, n, writers)
  {
    hide *;
    PlainHasNoCounters(sink, writers);
    ghost var s0, script := Abs(src), sink.script;
    BaseIsThere(src);
    AbsIsSound(src);
    CountIsTransparent(s0, readers);
    PiecesOfAdded(s0, readers, HUGE_SIZE);
    Parts(src);
    CountIsAPart(src);
    var source := NewReader(src, readers);
    ghost var shape, stores := Abs(source), LiveStores(source);
    assert allocated(Objects(source));
    PlainHasNoCounters(sink, writers);
    var destination := NewWriter(PlainW(sink), writers);
    assert Valid(source) && Abs(source) == shape && LiveStores(source) == stores;
    n, err, m := CopyBuffer(destination, source, HUGE_SIZE, led, alloc);
    AddedLoop(s0, readers, script, old(led.totals), led.totals, n, writers);
    UnderCounter(source, src);
    ExtendedWithNothing(LoopRun(s0, script, HUGE_SIZE).2, readers);
  }

  /** The reader that NewReader counts is as the counting reader says. */
  lemma UnderCounter(source: Reader, src: Reader)
    requires Valid(source) && (source == src || (source.Counted? && source.inner == src))
    ensures Valid(src) && LiveStores(src) == LiveStores(source) && NilBased(Abs(src)) == NilBased(Abs(source))
    ensures source != src ==> Abs(source).SCounted? && Abs(src) == Abs(source).inner
  {
  }

  lemma ExtendedWithNothing(s: Shape, cs: seq<CounterId>)
    ensures cs == [] || !s.SCounted? ==> Extended(s, cs) == s
  {
    assert cs == [] && s.SCounted? ==> s.counters + cs == s.counters;
  }

  lemma CountIsAPart(r: Reader)
    ensures r.Counted? ==> r.count in Objects(r)
  {
  }

  lemma PlainHasNoCounters(sink: Sink, writers: seq<CounterId>)
    ensures 0 < HUGE_SIZE
    ensures SinkOf(PlainW(sink)) == sink && WriteCounters(PlainW(sink)) == [] && [] + writers == writers
  {
  }

  /** Where copyEarly ends: as the handshake does, or after the cached buffers. */
  ghost predicate EarlyDone(h: Handshake, s: Shape, script: seq<WriteReply>, before: seq<byte>, after: seq<byte>,
      n: nat, err: Option<Error>, told: (nat, nat), base: Shape, depth: nat, rest: seq<WriteReply>)
    requires Sound(s) && !NilBased(s)
  {
    var (s1, m, k) := Shaken(h, s);
    if ShakeFate(h, s).HandshakeReadFailed? || ShakeFate(h, s).Refused? then
      && Shook(h, s, before, after, n, err, base) && base == s1 && depth == 0
      && told == (m, if ShakeFate(h, s).HandshakeReadFailed? then 0 else k)
    else
      var c := Caches(script, CachedLens(h, s));
      && n == k + c.n && n <= |Arriving(h, s)| && after == before + Arriving(h, s)[..n]
      && told == (m + c.told, k + c.told) && rest == c.rest
      && (if c.err.Some? then err == Some(Wrapped("writeCache", c.err.value))
          else err == None && Progress(before, after, Arriving(h, s), n, Unread(base)))
      && base == Peel(s1).0 && depth == PeelDepth(s1)
  }

  lemma EarlyAfterShake(h: Handshake, s: Shape, script: seq<WriteReply>, before: seq<byte>, after: seq<byte>,
                        n: nat, err: Option<Error>, m: nat, taken: nat, rest: Shape)
    requires Sound(s) && !NilBased(s) && Shook(h, s, before, after, n, err, rest) && err.Some?
    requires rest == Shaken(h, s).0
    requires m == Shaken(h, s).1 && taken == if ShakeFate(h, s).HandshakeReadFailed? then 0 else n
    ensures EarlyDone(h, s, script, before, after, n, err, (m, taken), rest, 0, script)
  {
  }

  lemma EarlyAfterCaches(h: Handshake, s: Shape, script: seq<WriteReply>, before: seq<byte>, mid: seq<byte>, after: seq<byte>,
                         k: nat, s1: Shape, c: Delivery)
    requires Sound(s) && !NilBased(s) && Shook(h, s, before, mid, k, None, s1)
    requires AllPositive(Lens(Peel(s1).1)) && c == Caches(script, Lens(Peel(s1).1))
    requires Unread(s1) == Flatten(Peel(s1).1) + Unread(Peel(s1).0)
    requires c.n <= |Flatten(Peel(s1).1)| && after == mid + Flatten(Peel(s1).1)[..c.n]
    requires c.err.None? ==> c.n == |Flatten(Peel(s1).1)|
    ensures var err := if c.err.Some? then Some(Wrapped("writeCache", c.err.value)) else None;
      EarlyDone(h, s, script, before, after, k + c.n, err, (Shaken(h, s).1 + c.told, k + c.told), Peel(s1).0, PeelDepth(s1), c.rest)
  {
    hide Caches, Peel, PeelDepth, Flatten, Unread, Arriving, Shaken, ShakeFate;
    ProgressStep(before, mid, after, Arriving(h, s), k, Unread(s1), Flatten(Peel(s1).1), None, Unread(Peel(s1).0), c.n);
  }

  /** copyEarly: the handshake, then the cached buffers. The chain stays, with `base` under `depth`
      readers whose buffers were picked. */
  method CopyEarly(sink: Sink, src: Reader, writers: seq<CounterId>, readers: seq<CounterId>, led: Ledger, alloc: Allocator)
    returns (n: nat, base: Reader, err: Option<Error>, ghost told: (nat, nat), ghost depth: nat)
    requires Valid(src) && !NilBased(Abs(src)) && alloc.Valid() && LiveStores(src) !! alloc.Pooled()
    modifies Objects(src), sink, led, alloc
    ensures Valid(base) && !NilBased(Abs(base)) && alloc.Valid() && LiveStores(base) !! alloc.Pooled()
    ensures Objects(base) <= Objects(src) && Picks(src, base, depth)
    ensures Sound(old(Abs(src)))
    ensures EarlyDone(old(sink.handshake), old(Abs(src)), old(sink.script), old(sink.received), sink.received,
                      n, err, told, Abs(base), depth, sink.script)
    ensures Told(old(led.totals), led.totals, ShakeBelow(old(sink.handshake), old(Abs(src))), told.0, readers, told.1, writers)
  {
    hide *;
    AbsIsSound(src);
    ghost var h, s0, t0, script, received := sink.handshake, Abs(src), led.totals, sink.script, sink.received;
    ghost var m, taken;
    SinkApart(src, sink);
    n, err, m, taken := Shake(sink, src, readers, writers, led, alloc);
    told, base, depth := (m, taken), src, 0;
    PicksNothing(src);
    if err.Some? {
      EarlyAfterShake(h, s0, script, received, sink.received, n, err, m, taken, Abs(src));
      return;
    }
    ShookThrough(h, s0, received, sink.received, n, Abs(src));
    ghost var t1, mid, s1, below := led.totals, sink.received, Abs(src), ShakeBelow(h, s0);
    var cached;
    ghost var m1;
    cached, base, err, m1 := CopyCaches(sink, src, readers, writers, led, alloc);
    depth := PeelDepth(s1);
    EarlyAfterCaches(h, s0, script, received, mid, sink.received, n, s1, Delivery(cached, err, m1, sink.script));
    NobodyToo(below);
    ToldThen(t0, t1, led.totals, below, Nobody(), below, m, m1, readers, n, m1, writers);
    n, told := n + cached, (m + m1, n + m1);
    err := if err.Some? then Some(Wrapped("writeCache", err.value)) else None;
  }

  lemma ShookThrough(h: Handshake, s: Shape, before: seq<byte>, after: seq<byte>, n: nat, rest: Shape)
    requires Shook(h, s, before, after, n, None, rest)
    ensures !ShakeFate(h, s).HandshakeReadFailed?
  {
  }

  /** What a copy promises: the front of what can arrive is delivered, and bytes, errors and counters
      are those of the outcome. */
  ghost predicate Copied(h: Handshake, s: Shape, script: seq<WriteReply>, before: seq<byte>, after: seq<byte>,
      n: nat, err: Option<Error>)
    requires Sound(s) && !NilBased(s)
  {
    var r := Outcome(h, s, script);
    r.sent <= |Arriving(h, s)| && after == before + Arriving(h, s)[..r.sent] && n == r.n && err == r.err
  }

  lemma CopiedEarly(h: Handshake, s: Shape, script: seq<WriteReply>, before: seq<byte>, after: seq<byte>,
                    n: nat, err: Option<Error>, told: (nat, nat), base: Shape, depth: nat, rest: seq<WriteReply>)
    requires Sound(s) && !NilBased(s) && err.Some?
    requires EarlyDone(h, s, script, before, after, n, err, told, base, depth, rest)
    ensures Copied(h, s, script, before, after, n, Some(Wrapped("copyEarly", err.value)))
    ensures told == (Outcome(h, s, script).readTold, Outcome(h, s, script).writeTold)
  {
    hide Caches, Pump, LoopPieces, CachedLens, Arriving, Shaken, Progress, ShakeFate, Copied, Sound, NilBased;
    assert before + Arriving(h, s)[..0] == before;
    CopiedIs(h, s, script, before, after, n, Some(Wrapped("copyEarly", err.value)));
  }

  lemma CopiedFully(h: Handshake, s: Shape, script: seq<WriteReply>, before: seq<byte>, mid: seq<byte>, after: seq<byte>,
                    n: nat, told: (nat, nat), base: Shape, depth: nat, rest: seq<WriteReply>, p: Delivery, err: Option<Error>)
    requires Sound(s) && !NilBased(s) && !NilBased(base)
    requires EarlyDone(h, s, script, before, mid, n, None, told, base, depth, rest)
    requires p == Pump(rest, Pieces(base, HUGE_SIZE)) && p.n <= |Unread(base)| && after == mid + Unread(base)[..p.n]
    requires err == if p.err.Some? then p.err else if EndOf(base) == EOF then None else Some(EndOf(base))
    ensures Copied(h, s, script, before, after, n + p.n, PureError(err))
    ensures (told.0 + p.told, told.1 + p.n) == (Outcome(h, s, script).readTold, Outcome(h, s, script).writeTold)
  {
    hide *;
    EarlyThrough(h, s, script, before, mid, n, told, base, depth, rest);
    OutcomeCases(h, s, script);
    PureErrors(Some(EndOf(s)));
    PureErrors(None);
    assert Unread(base) + [] == Unread(base);
    ProgressStep(before, mid, after, Arriving(h, s), n, Unread(base), Unread(base), None, [], p.n);
    CopiedIs(h, s, script, before, after, n + p.n, PureError(err));
  }

  lemma CopiedIs(h: Handshake, s: Shape, script: seq<WriteReply>, before: seq<byte>, after: seq<byte>, n: nat, err: Option<Error>)
    requires Sound(s) && !NilBased(s)
    requires var r := Outcome(h, s, script);
      r.sent <= |Arriving(h, s)| && after == before + Arriving(h, s)[..r.sent] && n == r.n && err == r.err
    ensures Copied(h, s, script, before, after, n, err)
  {
  }

  /** When copyEarly goes through: where it leaves the copy. */
  lemma EarlyThrough(h: Handshake, s: Shape, script: seq<WriteReply>, before: seq<byte>, mid: seq<byte>,
                     n: nat, told: (nat, nat), base: Shape, depth: nat, rest: seq<WriteReply>)
    requires Sound(s) && !NilBased(s) && !NilBased(base)
    requires EarlyDone(h, s, script, before, mid, n, None, told, base, depth, rest)
    ensures ShakeFate(h, s).Nothing? || ShakeFate(h, s).HandshakeShort?
    ensures var (_, m, k) := Shaken(h, s);
      var c := Caches(script, CachedLens(h, s));
      && c.err.None? && n == k + c.n && told == (m + c.n, k + c.n) && rest == c.rest
    ensures 0 < HUGE_SIZE && LoopPieces(h, s) == Pieces(base, HUGE_SIZE) && EndOf(base) == EndOf(s)
    ensures Progress(before, mid, Arriving(h, s), n, Unread(base))
    ensures base == LoopBase(h, s) && depth == PeelDepth(Shaken(h, s).0) && Through(h, s, script)
  {
    hide Caches, Arriving, Shaken, ShakeFate, Progress, CachedLens, Unread, Pieces;
    CachesDeliver(script, CachedLens(h, s));
    BaseEnds(h, s);
  }

  lemma BaseEnds(h: Handshake, s: Shape)
    requires Sound(s) && !NilBased(s) && !ShakeFate(h, s).HandshakeReadFailed? && !ShakeFate(h, s).Refused?
    ensures EndOf(Peel(Shaken(h, s).0).0) == EndOf(s)
  {
    ArrivingSplit(h, s);
    ShakenKeeps(h, s);
  }

  /** The chain and its counters after a copy that ended before. */
  lemma LeftEarly(h: Handshake, s: Shape, script: seq<WriteReply>, before: seq<byte>, after: seq<byte>,
                  n: nat, err: Option<Error>, told: (nat, nat), base: Shape, depth: nat, rest: seq<WriteReply>,
                  readers: seq<CounterId>)
    requires Sound(s) && !NilBased(s) && err.Some?
    requires EarlyDone(h, s, script, before, after, n, err, told, base, depth, rest)
    ensures Left(h, s, script, readers) == Under(depth, base)
    ensures forall c: CounterId :: Below(h, s, script)(c) == ShakeBelow(h, s)(c)
  {
    hide Caches, CachedLens, Arriving, Shaken, Progress, ShakeFate, Sound, NilBased, ShakeBelow, LoopBelow, Looped, Shook;
  }

  /** The chain and its counters after a copy that got to its loop. */
  lemma LeftFully(h: Handshake, s: Shape, script: seq<WriteReply>, before: seq<byte>, mid: seq<byte>,
                  n: nat, told: (nat, nat), base: Shape, depth: nat, rest: seq<WriteReply>, readers: seq<CounterId>)
    requires Sound(s) && !NilBased(s) && !NilBased(base) && 0 < HUGE_SIZE
    requires EarlyDone(h, s, script, before, mid, n, None, told, base, depth, rest)
    ensures Left(h, s, script, readers) == Under(depth, Extended(LoopRun(base, rest, HUGE_SIZE).2, readers))
    ensures forall c: CounterId :: Below(h, s, script)(c) == ShakeBelow(h, s)(c) + LoopBelow(base, rest, HUGE_SIZE)(c)
  {
    EarlyThrough(h, s, script, before, mid, n, told, base, depth, rest);
    PeeledCases(h, s, script, readers);
    hide Through, LoopBase, Looped, Left, ShakeBelow, LoopBelow, EarlyDone, Caches, CachedLens, Shaken;
  }

  /** CopyCounters to a plain destination, for every source, destination and handshake. */
  method CopyCounters(sink: Sink, src: Reader, writers: seq<CounterId>, readers: seq<CounterId>, led: Ledger, alloc: Allocator)
    returns (n: nat, err: Option<Error>)
    requires Valid(src) && !NilBased(Abs(src)) && alloc.Valid() && LiveStores(src) !! alloc.Pooled()
    modifies Objects(src), sink, led, alloc
    ensures Valid(src) && alloc.Valid() && LiveStores(src) !! alloc.Pooled()
    ensures Sound(old(Abs(src)))
    ensures Copied(old(sink.handshake), old(Abs(src)), old(sink.script), old(sink.received), sink.received, n, err)
    ensures Abs(src) == Left(old(sink.handshake), old(Abs(src)), old(sink.script), readers)
    ensures var r := Outcome(old(sink.handshake), old(Abs(src)), old(sink.script));
      r.writeTold <= n && Told(old(led.totals), led.totals, Below(old(sink.handshake), old(Abs(src)), old(sink.script)),
                               r.readTold, readers, r.writeTold, writers)
  {
    hide *;
    ghost var h, s0, t0, script, received := sink.handshake, Abs(src), led.totals, sink.script, sink.received;
    var base;
    ghost var told, depth;
    n, base, err, told, depth := CopyEarly(sink, src, writers, readers, led, alloc);
    ghost var t1, mid, b, rest := led.totals, sink.received, Abs(base), sink.script;
    ghost var below, shaken := Below(h, s0, script), ShakeBelow(h, s0);
    if err.Some? {
      CopiedEarly(h, s0, script, received, mid, n, err, told, b, depth, rest);
      LeftEarly(h, s0, script, received, mid, n, err, told, b, depth, rest, readers);
      ToldAs(t0, t1, shaken, below, told.0, readers, told.1, writers);
      ToldAtMost(h, s0, script, received, mid, n, Some(Wrapped("copyEarly", err.value)));
      PickedStill(src, base, depth);
      return n, Some(Wrapped("copyEarly", err.value));
    }
    PicksApart(src, base, depth);
    assert allocated(Above(src, depth));
    var pure;
    ghost var m;
    pure, err, m := CopyGeneric(sink, base, writers, readers, led, alloc);
    PickedStill(src, base, depth);
    LeftFully(h, s0, script, received, mid, n, told, b, depth, rest, readers);
    CopiedFully(h, s0, script, received, mid, sink.received, n, told, b, depth, rest, Pump(rest, Pieces(b, HUGE_SIZE)), err);
    ToldThen(t0, t1, led.totals, shaken, LoopBelow(b, rest, HUGE_SIZE), below, told.0, m, readers, told.1, pure, writers);
    n := n + pure;
    err := PureError(err);
    ToldAtMost(h, s0, script, received, sink.received, n, err);
  }

  lemma ToldAs(t0: CounterId -> int, t1: CounterId -> int, b: CounterId -> int, below: CounterId -> int,
               m: nat, readers: seq<CounterId>, n: nat, writers: seq<CounterId>)
    requires Told(t0, t1, b, m, readers, n, writers) && forall c: CounterId :: below(c) == b(c)
    ensures Told(t0, t1, below, m, readers, n, writers)
  {
  }

  /** Whatever happens, the write counters are not told more bytes than are returned. */
  lemma ToldAtMost(h: Handshake, s: Shape, script: seq<WriteReply>, before: seq<byte>, after: seq<byte>, n: nat, err: Option<Error>)
    requires Sound(s) && !NilBased(s) && Copied(h, s, script, before, after, n, err)
    ensures Outcome(h, s, script).writeTold <= n
  {
    OutcomeLaw(h, s, script);
  }

  lemma {:induction false} UnwrapFacts(s: Shape)
    ensures var base := Unwrap(s).0;
      && NilBased(base) == NilBased(s) && Sound(base) == Sound(s) && Unread(base) == Unread(s) && EndOf(base) == EndOf(s)
  {
    UnwrapIsTransparent(s);
  }

  /** What the outcome means when no handshake is due. */
  lemma CopiedWithoutHandshake(s: Shape, script: seq<WriteReply>, before: seq<byte>, after: seq<byte>, n: nat, err: Option<Error>)
    requires Sound(s) && !NilBased(s) && Copied(NotNeeded, s, script, before, after, n, err)
    ensures n <= Gone(NotNeeded, s, script) <= |Unread(s)| && after == before + Unread(s)[..n]
    ensures !Outcome(NotNeeded, s, script).refused || Willing(script) || (NoEof(script) && err.None?) ==>
      && after == before + Unread(s) && n == |Unread(s)| && (err.None? <==> Innermost(EndOf(s)) == EOF)
      && (err.Some? ==> Innermost(err.value) == Innermost(EndOf(s)))
      && Outcome(NotNeeded, s, script).readTold == Outcome(NotNeeded, s, script).writeTold == n
  {
    assert ShakeFate(NotNeeded, s) == Nothing && Arriving(NotNeeded, s) == Unread(s);
    OutcomeLaw(NotNeeded, s, script);
    DeliveredIsGone(NotNeeded, s, script);
    if Willing(script) {
      WillingIsNotRefused(NotNeeded, s, script);
    }
    if NoEof(script) {
      NoEofNoLoss(NotNeeded, s, script);
    }
    assert Unread(s)[..|Unread(s)|] == Unread(s);
  }

  /** What is still to come from the chain, seen through the counters around it. */
  lemma StillToComeThrough(h: Handshake, s: Shape, script: seq<WriteReply>)
    requires Sound(Unwrap(s).0) && !NilBased(Unwrap(s).0) && Unread(Unwrap(s).0) == Unread(s)
    ensures var gone, after := Gone(h, Unwrap(s).0, script), AfterCopy(h, s, script);
      && gone <= |Unread(s)| && !NilBased(after)
      && if EndMet(h, Unwrap(s).0, script) then gone == |Unread(s)| else Unread(after) == Unread(s)[gone..]
    ensures AfterCopy(h, s, script) == Rewrap(s, Left(h, Unwrap(s).0, script, Unwrap(s).1))
  {
    var (base, readers) := Unwrap(s);
    WhatIsStillToCome(h, base, script, readers);
    RewrapIsTransparent(s, Left(h, base, script, readers));
  }

  /** Copy: what counts on the outside of both ends is told about every byte, and the copy runs
      between what is inside. The source can be read on, and copied from again. */
  method Copy(dst: Writer, src: Reader, led: Ledger, alloc: Allocator) returns (n: nat, err: Option<Error>)
    requires Valid(src) && !NilBased(Abs(src)) && alloc.Valid() && LiveStores(src) !! alloc.Pooled()
    modifies Objects(src), SinkOf(dst), led, alloc
    ensures Sound(Unwrap(old(Abs(src))).0) && !NilBased(Unwrap(old(Abs(src))).0)
    ensures Copied(old(SinkOf(dst).handshake), Unwrap(old(Abs(src))).0, old(SinkOf(dst).script),
                   old(SinkOf(dst).received), SinkOf(dst).received, n, err)
    // every counter, wherever it is attached
    ensures var h, s, script := old(SinkOf(dst).handshake), Unwrap(old(Abs(src))).0, old(SinkOf(dst).script);
      var r := Outcome(h, s, script);
      && r.writeTold <= n
      && Told(old(led.totals), led.totals, Below(h, s, script), r.readTold, Unwrap(old(Abs(src))).1, r.writeTold, old(WriteCounters(dst)))
    // the source afterwards, and the bytes that are still to come from it
    ensures Valid(src) && !NilBased(Abs(src)) && alloc.Valid() && LiveStores(src) !! alloc.Pooled()
    ensures Abs(src) == AfterCopy(old(SinkOf(dst).handshake), old(Abs(src)), old(SinkOf(dst).script))
    ensures var h, s, script := old(SinkOf(dst).handshake), Unwrap(old(Abs(src))).0, old(SinkOf(dst).script);
      && Gone(h, s, script) <= |Unread(old(Abs(src)))|
      && if EndMet(h, s, script) then Gone(h, s, script) == |Unread(old(Abs(src)))|
         else Unread(Abs(src)) == Unread(old(Abs(src)))[Gone(h, s, script)..]
    // without a handshake: the first n bytes of the stream, and those are gone
    ensures old(SinkOf(dst).handshake) == NotNeeded ==>
      && n <= Gone(NotNeeded, Unwrap(old(Abs(src))).0, old(SinkOf(dst).script)) <= |Unread(old(Abs(src)))|
      && SinkOf(dst).received == old(SinkOf(dst).received) + Unread(old(Abs(src)))[..n]
    // and all of it to a destination that takes everything, or never says io.EOF and the result is nil
    ensures (old(SinkOf(dst).handshake) == NotNeeded
        && (Willing(old(SinkOf(dst).script)) || (NoEof(old(SinkOf(dst).script)) && err.None?))) ==>
      && SinkOf(dst).received == old(SinkOf(dst).received) + Unread(old(Abs(src))) && n == |Unread(old(Abs(src)))|
      && (err.None? <==> Innermost(EndOf(old(Abs(src)))) == EOF)
      && (err.Some? ==> Innermost(err.value) == Innermost(EndOf(old(Abs(src)))))
      && Told(old(led.totals), led.totals, Below(NotNeeded, Unwrap(old(Abs(src))).0, old(SinkOf(dst).script)),
              n, Unwrap(old(Abs(src))).1, n, old(WriteCounters(dst)))
  {
    hide *;
    ghost var s0, h, script, received := Abs(src), SinkOf(dst).handshake, SinkOf(dst).script, SinkOf(dst).received;
    UnwrapFacts(s0);
    AbsIsSound(src);
    StillToComeThrough(h, s0, script);
    assert allocated(Objects(src)) && allocated(Cells(dst)) && allocated(SinkOf(dst)) && allocated(Layers(src));
    var source, readers := UnwrapReadCounter(src);
    ghost var shape, stores := Abs(source), LiveStores(source);
    AroundApart(src, source);
    AroundStart(src, source, Left(h, shape, script, readers));
    assert allocated(Objects(source));
    var destination, writers := UnwrapWriterCounter(dst);
    assert Valid(source) && Abs(source) == shape && LiveStores(source) == stores;
    n, err := CopyCounters(destination.sink, source, writers, readers, led, alloc);
    AroundStill(src, source);
    if h == NotNeeded {
      CopiedWithoutHandshake(shape, script, received, SinkOf(dst).received, n, err);
    }
  }

  /** A destination that answers its first write with io.EOF ends a copy without an error, although
      the source's two bytes never arrive. */
  method EofFromTheDestinationIsSwallowed(a: byte, b: byte, src: Source, sink: Sink, led: Ledger, alloc: Allocator)
    returns (n: nat, err: Option<Error>)
    requires src.script == [Reply([a, b], None)]
    requires sink.script == [WriteReply(0, Some(EOF))] && sink.handshake == NotNeeded
    requires alloc.Valid() && alloc.Pooled() == {}
    modifies src, sink, led, alloc
    ensures Stream(old(src.script)) == [a, b]
    ensures err == None && n == 0 && sink.received == old(sink.received)
  {
    ghost var s, script := SPlain(src.script), sink.script;
    EofCase(a, b);
    n, err := Copy(PlainW(sink), Plain(src), led, alloc);
    assert sink.received == old(sink.received) + Unread(s)[..0];
  }

  lemma EofCase(a: byte, b: byte)
    ensures var s := SPlain([Reply([a, b], None)]);
      && Sound(s) && !NilBased(s) && Unread(s) == [a, b]
      && var r := Outcome(NotNeeded, s, [WriteReply(0, Some(EOF))]); r.n == r.sent == 0 && r.err == None
  {
    var reply := Reply([a, b], None);
    var s := SPlain([reply]);
    ScriptCons(reply, []);
    assert [reply] + [] == [reply] && [a, b] + [] == [a, b];
    assert Shaken(NotNeeded, s) == (s, 0, 0) && Peel(s) == (s, []);
    assert CachedLens(NotNeeded, s) == [];
    assert ReadStep(s, HUGE_SIZE) == ([a, b], None, SPlain([]));
    assert Pieces(SPlain([]), HUGE_SIZE) == [];
    assert LoopPieces(NotNeeded, s) == Pieces(s, HUGE_SIZE) == [2] + [] == [2];
    var p := Pump([WriteReply(0, Some(EOF))], [2]);
    assert p.n == 0 && p.err == Some(EOF);
    PureErrors(p.err);
    OutcomeCases(NotNeeded, s, [WriteReply(0, Some(EOF))]);
  }

  /** Two copies of one source, which counts for `a` outside and for `b` under a cached byte. The first
      destination takes the cached byte and then fails; the second takes everything, so it gets the one
      byte that is left. `a` is told that byte twice. */
  method SecondCopyTellsTwice(a: CounterId, b: CounterId, x: byte, y: byte, z: byte, src: Reader, broken: Sink, fine: Sink,
      led: Ledger, alloc: Allocator)
    returns (n1: nat, n2: nat, err: Option<Error>, ghost between: int)
    requires Valid(src) && alloc.Valid() && LiveStores(src) !! alloc.Pooled() && a != b && broken != fine
    requires Abs(src) == Twofold(a, b, x, y, z)
    requires broken.script == [WriteReply(1, None), WriteReply(0, Some(Other(5)))] && fine.script == []
    requires broken.handshake == NotNeeded && fine.handshake == NotNeeded
    modifies Objects(src), broken, fine, led, alloc
    ensures n1 == 1 && broken.received == old(broken.received) + [x]
    ensures n2 == 1 && fine.received == old(fine.received) + [z] && err == None
    ensures between == old(led.totals)(a) + 2 && led.totals(a) == between + 2
  {
    hide *;
    ghost var script := broken.script;
    FirstCopy(a, b, x, y, z, script);
    SinkApart(src, broken);
    SinkApart(src, fine);
    PlainHasNoCounters(broken, []);
    PlainHasNoCounters(fine, []);
    ghost var t0, received, u := led.totals, broken.received, Within(b, x, y, z);
    n1, err := Copy(PlainW(broken), src, led, alloc);
    CopiedOf(NotNeeded, u, script, received, broken.received, n1, err);
    ToldOf(t0, led.totals, Below(NotNeeded, u, script), 2, [a], Outcome(NotNeeded, u, script).writeTold, [], a);
    assert [x, y, z][..1] == [x];
    between := led.totals(a);
    SecondCopy(a, b, x, y, z, script);
    ghost var t1, v := led.totals, WithinAfter(a, b, z);
    PlainHasNoCounters(fine, []);
    n2, err := Copy(PlainW(fine), src, led, alloc);
    ToldOf(t1, led.totals, Below(NotNeeded, v, []), n2, [a], n2, [], a);
  }

  lemma CopiedOf(h: Handshake, s: Shape, script: seq<WriteReply>, before: seq<byte>, after: seq<byte>, n: nat, err: Option<Error>)
    requires Sound(s) && !NilBased(s) && Copied(h, s, script, before, after, n, err)
    ensures n == Outcome(h, s, script).n && err == Outcome(h, s, script).err
  {
  }

  lemma ToldOf(t0: CounterId -> int, t1: CounterId -> int, below: CounterId -> int,
               m: nat, readers: seq<CounterId>, n: nat, writers: seq<CounterId>, c: CounterId)
    requires Told(t0, t1, below, m, readers, n, writers)
    ensures t1(c) == t0(c) + below(c) + Charge(m, readers, c) + Charge(n, writers, c)
  {
  }

  /** The chain of that example. */
  function Twofold(a: CounterId, b: CounterId, x: byte, y: byte, z: byte): Shape {
    SCounted([a], Within(b, x, y, z))
  }

  function Within(b: CounterId, x: byte, y: byte, z: byte): Shape { SCached(false, [x], Counting(b, y, z)) }

  /** The same after the first copy. */
  function WithinAfter(a: CounterId, b: CounterId, z: byte): Shape {
    SCached(true, [], SCounted([b, a], SPlain([Reply([z], None)])))
  }

  /** What the loop of the first copy reads from. */
  function Counting(b: CounterId, y: byte, z: byte): Shape {
    SCounted([b], SPlain([Reply([y], None), Reply([z], None)]))
  }

  lemma TwoBytes(b: CounterId, y: byte, z: byte)
    ensures ReadStep(Counting(b, y, z), HUGE_SIZE) == ([y], None, SCounted([b], SPlain([Reply([z], None)])))
    ensures Unread(Counting(b, y, z)) == [y, z] && Stream([Reply([z], None)]) == [z] && End([Reply([z], None)]) == EOF
  {
    var r1, r2 := Reply([y], None), Reply([z], None);
    ScriptCons(r2, []);
    ScriptCons(r1, [r2]);
    assert [r2] + [] == [r2] && [r1] + [r2] == [r1, r2] && [z] + [] == [z] && [y] + [z] == [y, z];
    assert [r1, r2][1..] == [r2];
  }

  /** The loop reads the second byte, and its destination does not take it. */
  lemma FirstLoop(b: CounterId, y: byte, z: byte, rest: seq<WriteReply>)
    requires rest == [WriteReply(0, Some(Other(5)))]
    ensures !NilBased(Counting(b, y, z)) && 0 < HUGE_SIZE
    ensures LoopRun(Counting(b, y, z), rest, HUGE_SIZE) == ([y], None, SCounted([b], SPlain([Reply([z], None)])))
    ensures Pump(rest, Pieces(Counting(b, y, z), HUGE_SIZE)) == Delivery(0, Some(Other(5)), 1, [])
  {
    TwoBytes(b, y, z);
    LoopStep(Counting(b, y, z), rest, HUGE_SIZE);
    PumpStep(rest, Counting(b, y, z), HUGE_SIZE);
  }

  lemma FirstCaches(script: seq<WriteReply>)
    requires script == [WriteReply(1, None), WriteReply(0, Some(Other(5)))]
    ensures Caches(script, [1]) == Delivery(1, None, 1, [WriteReply(0, Some(Other(5)))])
  {
    assert script[1..] == [WriteReply(0, Some(Other(5)))];
    assert Drain(script, 1, 0) == Drained(0, None, script[1..]);
    assert Caches(script[1..], [1][1..]) == Delivery(0, None, 0, script[1..]);
  }

  lemma FirstCopy(a: CounterId, b: CounterId, x: byte, y: byte, z: byte, script: seq<WriteReply>)
    requires a != b && script == [WriteReply(1, None), WriteReply(0, Some(Other(5)))]
    ensures var s, u := Twofold(a, b, x, y, z), Within(b, x, y, z);
      && Unwrap(s) == (u, [a]) && !NilBased(s) && Sound(u) && !NilBased(u) && Unread(s) == [x, y, z]
      && Through(NotNeeded, u, script) && ExtendsInside(NotNeeded, s, script)
      && Looped(NotNeeded, u, script).2 == SCounted([b], SPlain([Reply([z], None)]))
      && Outcome(NotNeeded, u, script).n == 1 && Outcome(NotNeeded, u, script).readTold == 2
      && Below(NotNeeded, u, script)(a) == 0
      && Left(NotNeeded, u, script, [a]) == WithinAfter(a, b, z)
      && AfterCopy(NotNeeded, s, script) == SCounted([a], Left(NotNeeded, u, script, [a]))
    ensures forall n: nat :: Charge(n, [a], a) == n && Charge(n, [], a) == 0
  {
    var s, base := Twofold(a, b, x, y, z), Counting(b, y, z);
    var u := Within(b, x, y, z);
    FirstChain(a, b, x, y, z);
    FirstCaches(script);
    FirstLoop(b, y, z, [WriteReply(0, Some(Other(5)))]);
    hide Caches, Pump, Pieces, LoopRun, Peel, Unread, ReadStep, Attached, Unwrap;
    OutcomeCases(NotNeeded, u, script);
    BelowTellsNobodyElse(NotNeeded, u, script, a);
    PeeledCases(NotNeeded, u, script, [a]);
    assert Rewrap(u, Left(NotNeeded, u, script, [a])) == Left(NotNeeded, u, script, [a]);
    assert [b] + [a] == [b, a];
    assert Under(1, SCounted([b, a], SPlain([Reply([z], None)]))) == WithinAfter(a, b, z);
  }

  lemma FirstChain(a: CounterId, b: CounterId, x: byte, y: byte, z: byte)
    ensures var s, u := Twofold(a, b, x, y, z), Within(b, x, y, z);
      && Unwrap(s) == (u, [a]) && !NilBased(s) && Unread(s) == [x, y, z] && Attached(u) == {b}
      && Sound(u) && !NilBased(u) && Peel(u) == (Counting(b, y, z), [[x]]) && PeelDepth(u) == 1
      && Shaken(NotNeeded, u) == (u, 0, 0) && CachedLens(NotNeeded, u) == [1]
  {
    var u := Within(b, x, y, z);
    TwoBytes(b, y, z);
    assert [x] + [y, z] == [x, y, z] && u.inner == Counting(b, y, z);
    assert Unwrap(u) == (u, []) && [a] + [] == [a];
    assert Attached(u.inner) == {b} && !NilBased(u.inner) && !NilBased(u);
    assert Unread(u) == [x, y, z];
    assert Peel(u.inner) == (u.inner, []);
    assert [[x]] + [] == [[x]];
    assert Lens([[x]]) == [1] + Lens([[x]][1..]);
  }

  lemma SecondChain(a: CounterId, b: CounterId, y: byte, z: byte)
    ensures var s, v := SCounted([a], WithinAfter(a, b, z)), WithinAfter(a, b, z);
      && Unwrap(s) == (v, [a]) && !NilBased(s) && Sound(v) && !NilBased(v)
      && Unread(s) == Unread(v) == [z] && EndOf(s) == EndOf(v) == EOF
    ensures Attached(SCounted([b], SPlain([Reply([z], None)]))) == {b}
  {
    var v := WithinAfter(a, b, z);
    var counted := v.inner;
    TwoBytes(b, y, z);
    assert [] + [z] == [z];
    assert Unwrap(v) == (v, []) && [a] + [] == [a];
    assert !NilBased(counted.inner) && EndOf(counted.inner) == EOF && Unread(counted.inner) == [z];
    assert Unread(counted) == [z] && EndOf(counted) == EOF && !NilBased(counted);
    assert Unread(v) == [z] && EndOf(v) == EOF && !NilBased(v);
  }

  lemma SecondCopy(a: CounterId, b: CounterId, x: byte, y: byte, z: byte, script: seq<WriteReply>)
    requires a != b && script == [WriteReply(1, None), WriteReply(0, Some(Other(5)))]
    ensures var s, v := SCounted([a], WithinAfter(a, b, z)), WithinAfter(a, b, z);
      && Unwrap(s) == (v, [a]) && !NilBased(s) && Sound(v) && !NilBased(v)
      && Unread(s) == [z] && EndOf(s) == EOF && Willing([]) && Innermost(EOF) == EOF
      && Below(NotNeeded, v, [])(a) == 1
    ensures forall n: nat :: Charge(n, [a], a) == n && Charge(n, [], a) == 0
  {
    var v, inside := WithinAfter(a, b, z), SCounted([b], SPlain([Reply([z], None)]));
    FirstCopy(a, b, x, y, z, script);
    SecondChain(a, b, y, z);
    hide NilBased, Attached, Sound, Unwrap, EndOf, Through, Looped, Left, Below, AfterCopy, ExtendsInside, LoopRun, Outcome, Reads, Unread, Times;
    SecondCopyTells(NotNeeded, Twofold(a, b, x, y, z), script, [], a);
    assert LoopCharge(inside, [], HUGE_SIZE, a) == 0 by {
      RunChargesNobodyElse(inside, Times(Reads(inside, [], HUGE_SIZE), HUGE_SIZE), a);
    }
    WillingIsNotRefused(NotNeeded, v, []);
    OutcomeLaw(NotNeeded, v, []);
  }
}
