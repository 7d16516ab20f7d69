/**
 copyPure: a splice between two connections, and the plain loop when there is none or it is not
 supported.

 A connection shows two sides here: the raw one that splice calls use, and the reader or writer that
 the plain loop uses afterwards.
 */
module PureCopying {
  import opened Prelude
  import opened Alloc
  import opened Peers
  import opened Buffers
  import opened Counters
  import opened Chains
  import opened Readers
  import opened Deliveries
  import opened Aftermath
  import Sums
  import Copying
  import Splicing

  datatype CopyError = FromSplice(due: Splicing.SpliceError) | FromLoop(cause: Error)

  lemma {:induction false} RawSidesApart(r: Reader)
    ensures forall o :: o in Objects(r) ==>
      !(o is Splicing.In) && !(o is Splicing.Out) && !(o is Splicing.Pipe) && !(o is Splicing.PipePool)
  {
    match r
    case NoReader =>
    case Plain(_) =>
    case Cached(_, _, inner) => RawSidesApart(inner);
    case Counted(_, inner) => RawSidesApart(inner);
  }

  /** The kernel turns the splice down: the source side ends with EINVAL or ENOSYS, and until then the
      destination takes everything. */
  ghost predicate Unsupported(source: seq<Splicing.InEvent>, script: seq<Splicing.OutEvent>) {
    && !Splicing.DestinationFails(source, script)
    && var e := Splicing.Ending(source).0;
      e == Some(Splicing.EINVAL) || e == Some(Splicing.ENOSYS)
  }

  lemma TurnedDownExactlyWhen(source: seq<Splicing.InEvent>, script: seq<Splicing.OutEvent>)
    ensures var c := Splicing.Run(source, script);
      && (c.err.None? && !Splicing.Verdict(Splicing.Ending(source)).0 <==> Unsupported(source, script))
      && (c.err.None? ==> c.n == c.d == |Splicing.Offered(source)|)
  {
    Splicing.RunFailsExactlyWhen(source, script);
  }

  lemma DeliveredLength(content: seq<byte>, source: seq<Splicing.InEvent>, script: seq<Splicing.OutEvent>)
    ensures |Splicing.Delivered(content, source, script)| == Splicing.Run(source, script).d
  {
    hide Splicing.Run, Splicing.Offered;
  }

  /** The error of the loop. */
  function LoopError(d: Delivery, end: Error): Option<CopyError> {
    if d.err.Some? then Some(FromLoop(d.err.value)) else if end == EOF then None else Some(FromLoop(end))
  }

  /** The error of a splice that got a pipe and was not turned down. */
  function SpliceAnswer(source: seq<Splicing.InEvent>, script: seq<Splicing.OutEvent>): Option<CopyError> {
    var c, e := Splicing.Run(source, script), Splicing.Ending(source).0;
    if c.err.Some? then Some(FromSplice(Splicing.WriteFailed(c.err.value)))
    else if e.Some? then Some(FromSplice(Splicing.ReadFailed(e.value)))
    else None
  }

  lemma AnswerIs(source: seq<Splicing.InEvent>, script: seq<Splicing.OutEvent>)
    ensures var c, v := Splicing.Run(source, script), Splicing.Verdict(Splicing.Ending(source));
      && (c.err.Some? ==> SpliceAnswer(source, script) == Some(FromSplice(Splicing.WriteFailed(c.err.value))))
      && (c.err.None? && v.0 && v.1.Some? ==> SpliceAnswer(source, script) == Some(FromSplice(v.1.value)))
      && (c.err.None? && v.0 && v.1.None? ==> SpliceAnswer(source, script) == None)
  {
    hide Splicing.Run, Splicing.Ending;
  }

  /** The splice, as the rest of copyPure sees it: it leaves the plain sides of the two connections
      alone, and goes on only when it was turned down. */
  method TrySplice(pool: Splicing.PipePool, kernelRefuses: bool, source: Splicing.In, destination: Splicing.Out,
      src: Reader, writers: seq<CounterId>, readers: seq<CounterId>, led: Ledger, ghost alloc: Allocator)
    returns (handed: bool, n: nat, err: Option<CopyError>, ghost piped: bool, ghost spliced: nat)
    requires Valid(src) && alloc.Valid()
    modifies pool, pool.pipes, source, destination, led
    ensures Valid(src) && Abs(src) == old(Abs(src)) && LiveStores(src) == old(LiveStores(src))
    ensures |destination.received| == |old(destination.received)| + spliced
    ensures (!kernelRefuses ==> piped) && (kernelRefuses && old(pool.pipes) == {} ==> !piped)
    ensures !handed <==> piped && Unsupported(old(source.script), old(destination.script))
    ensures !handed ==> n == spliced == |Splicing.Offered(old(source.script))|
    ensures piped ==>
      var c := Splicing.Run(old(source.script), old(destination.script)); n == c.n && spliced == c.d
    ensures !piped ==> n == spliced == 0 && err == Some(FromSplice(Splicing.NoPipe))
    ensures piped && handed ==> err == SpliceAnswer(old(source.script), old(destination.script))
    ensures piped ==>
      (handed && err.None? <==> !Splicing.DestinationFails(old(source.script), old(destination.script)) && Splicing.CleanEnd(old(source.script)))
    ensures Copying.Told(old(led.totals), led.totals, Copying.Nobody(), n, readers, n, writers)
  {
    hide *;
    RawSidesApart(src);
    Parts(src);
    ghost var from, to, shape, stores := source.script, destination.script, Abs(src), LiveStores(src);
    TurnedDownExactlyWhen(from, to);
    AnswerIs(from, to);
    assert allocated(Objects(src));
    var e;
    ghost var used, content;
    handed, n, e, used, content := pool.Splice(source, destination, readers, writers, led, kernelRefuses);
    assert Valid(src) && Abs(src) == shape && LiveStores(src) == stores;
    DeliveredLength(content, from, to);
    BothAreTold(old(led.totals), led.totals, readers, writers, n, used.None?);
    err, piped := if e.Some? then Some(FromSplice(e.value)) else None, used.Some?;
    spliced := if piped then Splicing.Run(from, to).d else 0;
  }

  lemma BothAreTold(t0: CounterId -> int, t1: CounterId -> int, readers: seq<CounterId>, writers: seq<CounterId>, n: nat, still: bool)
    requires if still then t1 == t0 && n == 0 else Splicing.ToldBoth(t0, t1, readers, writers, n)
    ensures Copying.Told(t0, t1, Copying.Nobody(), n, readers, n, writers)
  {
    Copying.ToldNothing(t0, readers, writers);
  }

  /** copyPure; `raw` says that both ends give their raw connections. `spliced` and `looped` bytes got
      through on either way, `piped` when there was a pipe. */
  method CopyPure(raw: bool, pool: Splicing.PipePool, kernelRefuses: bool, source: Splicing.In, destination: Splicing.Out,
      sink: Sink, src: Reader, writers: seq<CounterId>, readers: seq<CounterId>, led: Ledger, alloc: Allocator)
    returns (n: nat, err: Option<CopyError>, ghost piped: bool, ghost spliced: nat, ghost looped: nat)
    requires Valid(src) && !NilBased(Abs(src)) && alloc.Valid() && LiveStores(src) !! alloc.Pooled()
    modifies pool, pool.pipes, source, destination, Objects(src), sink, led, alloc
    ensures Valid(src) && alloc.Valid() && LiveStores(src) !! alloc.Pooled()
    ensures |destination.received| == |old(destination.received)| + spliced
    ensures looped <= |Unread(old(Abs(src)))| && sink.received == old(sink.received) + Unread(old(Abs(src)))[..looped]
    ensures (!kernelRefuses ==> piped) && (kernelRefuses && old(pool.pipes) == {} ==> !piped)
    ensures 0 < HUGE_SIZE
    // without raw connections, and after a splice that was turned down, there is the loop; the counters
    // are told both
    ensures !raw || (piped && Unsupported(old(source.script), old(destination.script))) ==>
      var d := Pump(old(sink.script), Pieces(old(Abs(src)), HUGE_SIZE));
      && n == looped == d.n && err == LoopError(d, EndOf(old(Abs(src))))
      && spliced == (if raw then |Splicing.Offered(old(source.script))| else 0)
      && Copying.Told(old(led.totals), led.totals, LoopBelow(old(Abs(src)), old(sink.script), HUGE_SIZE),
                      spliced + d.told, readers, spliced + looped, writers)
    // otherwise the splice decides
    ensures raw && piped && !Unsupported(old(source.script), old(destination.script)) ==>
      var c := Splicing.Run(old(source.script), old(destination.script));
      && looped == 0 && n == c.n && spliced == c.d
      && err == SpliceAnswer(old(source.script), old(destination.script))
      && (err.None? <==> !Splicing.DestinationFails(old(source.script), old(destination.script)) && Splicing.CleanEnd(old(source.script)))
      && Copying.Told(old(led.totals), led.totals, Copying.Nobody(), n, readers, n, writers)
    ensures raw && !piped ==> n == spliced == looped == 0 && err == Some(FromSplice(Splicing.NoPipe))
    // n is what got through, exactly if no bytes were spliced before the splice was turned down, and no
    // round of it failed with bytes through
    ensures n == spliced + looped <==>
      || !raw || !piped
      || (if Unsupported(old(source.script), old(destination.script)) then Splicing.Offered(old(source.script)) == []
          else Splicing.Run(old(source.script), old(destination.script)).n == Splicing.Run(old(source.script), old(destination.script)).d)
  {
    hide *;
    HugeIsPositive();
    ghost var s0, t0, below := Abs(src), led.totals, LoopBelow(Abs(src), sink.script, HUGE_SIZE);
    RawSidesApart(src);
    n, piped, spliced, looped := 0, !kernelRefuses || pool.pipes != {}, 0, 0;
    assert sink.received + [] == sink.received && Unread(s0)[..0] == [];
    Copying.ToldNothing(t0, readers, writers);
    if raw {
      Parts(src);
      var handed;
      handed, n, err, piped, spliced := TrySplice(pool, kernelRefuses, source, destination, src, writers, readers, led, alloc);
      if handed {
        return;
      }
    }
    ghost var t1 := led.totals;
    var cause;
    ghost var m;
    n, cause, m := Copying.CopyGeneric(sink, src, writers, readers, led, alloc);
    LoopErrors();
    Copying.NobodyToo(below);
    Copying.ToldThen(t0, t1, led.totals, Copying.Nobody(), below, below, spliced, m, readers, spliced, n, writers);
    err, looped := if cause.Some? then Some(FromLoop(cause.value)) else None, n;
  }

  lemma HugeIsPositive()
    ensures 0 < HUGE_SIZE
  {
  }

  lemma LoopErrors()
    ensures forall d: Delivery, end: Error ::
      LoopError(d, end) == if d.err.Some? then Some(FromLoop(d.err.value)) else if end == EOF then None else Some(FromLoop(end))
  {
  }

  /** For example: one byte is spliced, then the kernel turns the splice down, and the loop copies the
      other one. Both arrive, and one is reported. */
  method SplicedBytesAreForgotten(a: byte, b: byte, source: Splicing.In, destination: Splicing.Out,
      sink: Sink, src: Source, led: Ledger, alloc: Allocator)
    returns (n: nat, err: Option<CopyError>)
    requires source.script == [Splicing.Data([a]), Splicing.Lost(Splicing.EINVAL, false)] && destination.script == []
    requires src.script == [Reply([b], None)] && sink.script == []
    requires alloc.Valid() && alloc.Pooled() == {}
    modifies source, destination, src, sink, led, alloc
    ensures |destination.received| == |old(destination.received)| + 1 && sink.received == old(sink.received) + [b]
    ensures n == 1 && err == None
  {
    hide *;
    var pool := new Splicing.PipePool();
    OneEach(a, b, src);
    ghost var piped, spliced, looped;
    n, err, piped, spliced, looped := CopyPure(true, pool, false, source, destination, sink, Plain(src), [], [], led, alloc);
    assert [b][..1] == [b];
  }

  lemma OneEach(a: byte, b: byte, src: Source)
    requires src.script == [Reply([b], None)]
    ensures Valid(Plain(src)) && LiveStores(Plain(src)) == {} && Objects(Plain(src)) == {src}
    ensures Abs(Plain(src)) == SPlain([Reply([b], None)])
    ensures !NilBased(SPlain([Reply([b], None)])) && Unread(SPlain([Reply([b], None)])) == [b]
    ensures var source := [Splicing.Data([a]), Splicing.Lost(Splicing.EINVAL, false)];
      Unsupported(source, []) && Splicing.Offered(source) == [a]
    ensures 0 < HUGE_SIZE
    ensures var s := SPlain([Reply([b], None)]);
      var d := Pump([], Pieces(s, HUGE_SIZE)); d.n == 1 && LoopError(d, EndOf(s)) == None
  {
    hide *;
    PlainIs(src);
    OneSpliced(a);
    OneLooped(b);
  }

  lemma PlainIs(src: Source)
    ensures Valid(Plain(src)) && LiveStores(Plain(src)) == {} && Objects(Plain(src)) == {src}
    ensures Abs(Plain(src)) == SPlain(src.script)
  {
  }

  lemma OneSpliced(a: byte)
    ensures var source := [Splicing.Data([a]), Splicing.Lost(Splicing.EINVAL, false)];
      Unsupported(source, []) && Splicing.Offered(source) == [a]
  {
    var data, lost := Splicing.Data([a]), Splicing.Lost(Splicing.EINVAL, false);
    Splicing.InCons(data, [lost]);
    assert [data] + [lost] == [data, lost] && [lost][1..] == [] && [a] + [] == [a];
    assert Splicing.Offered([lost]) == [] && Splicing.Ending([lost]).0 == Some(Splicing.EINVAL);
    NeverRefuses([data, lost]);
    hide Splicing.DestinationFails, Splicing.Offered, Splicing.Ending;
  }

  lemma OneLooped(b: byte)
    ensures !NilBased(SPlain([Reply([b], None)])) && Unread(SPlain([Reply([b], None)])) == [b] && 0 < HUGE_SIZE
    ensures var s := SPlain([Reply([b], None)]);
      var d := Pump([], Pieces(s, HUGE_SIZE)); d.n == 1 && LoopError(d, EndOf(s)) == None
  {
    var s := SPlain([Reply([b], None)]);
    ScriptCons(Reply([b], None), []);
    assert [Reply([b], None)] + [] == [Reply([b], None)] && [b] + [] == [b];
    hide Pump, Pieces;
    PiecesMakeUpTheStream(s, HUGE_SIZE);
    PumpFailsExactlyWhen([], Pieces(s, HUGE_SIZE));
    PumpDelivers([], Pieces(s, HUGE_SIZE));
  }

  /** A destination whose script is used up takes everything. */
  lemma NeverRefuses(source: seq<Splicing.InEvent>)
    ensures !Splicing.DestinationFails(source, [])
  {
    Splicing.RoundsMakeUpTheOffer(source);
    TakesAll(Splicing.Rounds(source));
    Splicing.RunFailsExactlyWhen(source, []);
  }

  lemma {:induction false} TakesAll(rounds: seq<nat>)
    requires Sums.AllPositive(rounds)
    ensures Splicing.Flow(rounds, []).err.None?
    decreases |rounds|
  {
    if rounds != [] {
      TakesAll(rounds[1..]);
    }
  }
}
