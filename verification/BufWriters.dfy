/** `BufWriter`: a writer that collects small writes in a buffer, over a writer that may write short or fail. */
module BufWriters {
  import opened Prelude
  import opened Alloc
  import opened Peers
  import opened Buffers

  function Concat(parts: seq<seq<byte>>): seq<byte> {
    if parts == [] then [] else Concat(parts[..|parts| - 1]) + parts[|parts| - 1]
  }

  datatype Op =
    | OpWrite(p: seq<byte>)
    | OpWriteString(s: seq<byte>)
    | OpWriteByte(b: byte)
    | OpFlush
    | OpReadFrom(src: Source)

  /** Flush with `pending` bytes in the buffer: its error, and what is left of the writer's script. */
  function AfterFlush(script: seq<WriteReply>, pending: nat): (Option<Error>, seq<WriteReply>) {
    if pending == 0 then (None, script)
    else
      var d := Drain(script, pending, 0);
      (if d.err.Some? then Some(Wrapped("flush", d.err.value)) else None, d.rest)
  }

  datatype Relayed = Relayed(taken: seq<byte>, err: Option<Error>, src: seq<Reply>, sink: seq<WriteReply>)

  /** ReadFrom after its first flush, with `room` bytes free in a buffer for `size`. */
  function Relay(src: seq<Reply>, sink: seq<WriteReply>, room: nat, size: nat): Relayed
    requires 0 < room <= size
    decreases Fuel(src)
  {
    ServeLaw(src, room);
    var (got, e, rest) := Serve(src, room);
    var (flushErr, sink') := AfterFlush(sink, |got|);
    if flushErr.Some? then Relayed(got, Some(Wrapped("flush", flushErr.value)), rest, sink')
    else if e.Some? then Relayed(got, if e == Some(EOF) then None else e, rest, sink')
    else
      var r := Relay(rest, sink', if got == [] then room else size, size);
      r.(taken := got + r.taken)
  }

  /** What was taken is the front of the source's stream. Nothing that was read is lost: unless the
      source is at its end, it still has the rest. Errors are the writer's or the source's own. */
  lemma {:induction false} RelayLaw(src: seq<Reply>, sink: seq<WriteReply>, room: nat, size: nat)
    requires 0 < room <= size
    ensures var r := Relay(src, sink, room, size);
      && (Stream(src) == r.taken || (Stream(src) == r.taken + Stream(r.src) && End(r.src) == End(src)))
      && (r.err.None? ==> r.taken == Stream(src) && End(src) == EOF)
      && (r.err.Some? ==> r.err.value.Wrapped? || (r.taken == Stream(src) && r.err.value == End(src) != EOF))
    decreases Fuel(src)
  {
    ServeLaw(src, room);
    var (got, e, rest) := Serve(src, room);
    var (flushErr, sink') := AfterFlush(sink, |got|);
    if flushErr.None? && e.None? {
      var again := if got == [] then room else size;
      RelayLaw(rest, sink', again, size);
      ConcatAssoc(got, Relay(rest, sink', again, size).taken, Stream(Relay(rest, sink', again, size).src));
    }
  }

  /** ReadFrom, with `pending` bytes in the buffer and `room` free once they are flushed. */
  function Reading(src: seq<Reply>, sink: seq<WriteReply>, pending: nat, room: nat, size: nat): Relayed
    requires room <= size
  {
    var (e, sink') := AfterFlush(sink, pending);
    if e.Some? then Relayed([], Some(Wrapped("flush", e.value)), src, sink')
    else if room == 0 then Relayed([], Some(Error.ShortWrite), src, sink')
    else Relay(src, sink', room, size)
  }

  lemma ReadingCases(src: seq<Reply>, sink: seq<WriteReply>, pending: nat, room: nat, size: nat)
    requires room <= size
    ensures var (e, sink') := AfterFlush(sink, pending);
      var r := Reading(src, sink, pending, room, size);
      && (e.Some? ==> r == Relayed([], Some(Wrapped("flush", e.value)), src, sink'))
      && (e.None? && room == 0 ==> r == Relayed([], Some(Error.ShortWrite), src, sink'))
      && (e.None? && 0 < room ==> r == Relay(src, sink', room, size))
  {
  }

  /** A nil result means that the whole stream was taken. Otherwise nothing that was read is lost: a
      source that is not at its end still has the rest. */
  lemma ReadingLaw(src: seq<Reply>, sink: seq<WriteReply>, pending: nat, room: nat, size: nat)
    requires room <= size
    ensures var r := Reading(src, sink, pending, room, size);
      && (Stream(src) == r.taken || (Stream(src) == r.taken + Stream(r.src) && End(r.src) == End(src)))
      && (r.err.None? ==> r.taken == Stream(src) && End(src) == EOF)
      && (r.err.Some? ==>
           r.err.value.Wrapped? || (room == 0 && r.err.value == Error.ShortWrite) || (r.taken == Stream(src) && r.err.value == End(src) != EOF))
  {
    hide *;
    ReadingCases(src, sink, pending, room, size);
    assert [] + Stream(src) == Stream(src);
    if AfterFlush(sink, pending).0.None? && 0 < room {
      RelayLaw(src, AfterFlush(sink, pending).1, room, size);
    }
  }

  class BufWriter {
    const underlay: Sink
    const buffer: Buffer

    constructor (underlay: Sink, buffer: Buffer)
      ensures this.underlay == underlay && this.buffer == buffer
    {
      this.underlay, this.buffer := underlay, buffer;
    }

    ghost predicate Valid()
      reads buffer
    {
      buffer.Usable()
    }

    /** What the underlying writer has received, followed by what still waits in the buffer. */
    ghost function Image(): seq<byte>
      requires Valid()
      reads underlay, buffer, buffer.store
    {
      underlay.received + buffer.Contents()
    }

    /** Moves pending bytes on; the image stays, whether or not the underlying writer fails. A
        buffer that was already drained keeps its cursors where they are. */
    method Flush() returns (err: Option<Error>)
      requires Valid()
      modifies underlay, buffer`r, buffer`w
      ensures Valid() && Image() == old(Image()) && buffer.r <= buffer.w <= buffer.size
      ensures (err, underlay.script) == AfterFlush(old(underlay.script), old(buffer.w - buffer.r))
      ensures err.None? ==> buffer.r == buffer.w == (if old(buffer.r == buffer.w) then old(buffer.w) else 0)
      ensures err.Some? ==>
        && old(buffer.r < buffer.w) && buffer.w == old(buffer.w)
        && buffer.r == buffer.w - Drain(old(underlay.script), old(buffer.w - buffer.r), 0).left
      ensures old(buffer.r == buffer.w) ==> underlay.received == old(underlay.received)
    {
      if buffer.r == buffer.w {
        return None;
      }
      ghost var all := buffer.Contents();
      var n, e := buffer.WriteTo(underlay);
      ConcatAssoc(old(underlay.received), all[..n], all[n..]);
      assert all[..n] + all[n..] == all;
      if e.Some? {
        return Some(Wrapped("flush", e.value));
      }
      buffer.Reset();
      err := None;
    }

    lemma Drained()
      requires Valid()
      ensures buffer.r == buffer.w ==> buffer.Contents() == [] && Image() == underlay.received
      ensures buffer.r <= buffer.w <= buffer.size <= buffer.len
    {
    }

    /** What fits is only collected; anything else goes to the underlying writer, after a flush. */
    method Write(p: seq<byte>) returns (n: nat, err: Option<Error>)
      requires Valid()
      modifies underlay, buffer`r, buffer`w, buffer.store
      ensures Valid() && n <= |p| && Image() == old(Image()) + p[..n]
      ensures |p| <= old(buffer.size - buffer.w) ==>
        n == |p| && err == None && underlay.received == old(underlay.received) && underlay.script == old(underlay.script)
      ensures |p| > old(buffer.size - buffer.w) ==>
        var (e, rest) := AfterFlush(old(underlay.script), old(buffer.w - buffer.r));
        if e.Some? then n == 0 && err == Some(Wrapped("flush", e.value)) && underlay.script == rest
        else (n, err, underlay.script) == Accept(rest, |p|)
    {
      Drained();
      hide *;
      if |p| > buffer.len || |p| > buffer.size - buffer.w {
        n, err := WriteThrough(p);
        return;
      }
      // The loop of the code returns in its first pass: everything fits.
      n, err := 0, None;
      if n < |p| {
        n, err := Collect(p);
      } else {
        assert Image() + p[..n] == Image();
      }
    }

    /** The first half of Write. */
    method WriteThrough(p: seq<byte>) returns (n: nat, err: Option<Error>)
      requires Valid()
      modifies underlay, buffer`r, buffer`w
      ensures Valid() && n <= |p| && Image() == old(Image()) + p[..n]
      ensures var (e, rest) := AfterFlush(old(underlay.script), old(buffer.w - buffer.r));
        if e.Some? then n == 0 && err == Some(Wrapped("flush", e.value)) && underlay.script == rest
        else (n, err, underlay.script) == Accept(rest, |p|)
    {
      hide *;
      err := Flush();
      if err.Some? {
        assert Image() + p[..0] == Image();
        return 0, Some(Wrapped("flush", err.value));
      }
      Drained();
      n, err := underlay.Write(p);
      Drained();
    }

    /** The second half: the bytes fit into the buffer. */
    method Collect(p: seq<byte>) returns (n: nat, err: Option<Error>)
      requires Valid() && 0 < |p| <= buffer.size - buffer.w
      modifies buffer`w, buffer.store
      ensures Valid() && n == |p| && err == None && Image() == old(Image()) + p[..n] && buffer.w == old(buffer.w) + n
    {
      n, err := buffer.Write(p);
      ConcatAssoc(underlay.received, old(buffer.Contents()), p[..n]);
    }

    /** A string that does not fit is put into the flushed buffer, or past it when it could never hold
        it. On a buffer that is drained but not reset a flush makes no room: io.ErrShortBuffer. */
    method WriteString(s: seq<byte>) returns (n: nat, err: Option<Error>)
      requires Valid()
      modifies underlay, buffer`r, buffer`w, buffer.store
      ensures Valid() && n <= |s| && Image() == old(Image()) + s[..n]
      ensures s == [] || |s| <= old(buffer.size - buffer.w) ==>
        n == |s| && err == None && underlay.received == old(underlay.received) && underlay.script == old(underlay.script)
      ensures s != [] && |s| > old(buffer.size - buffer.w) ==>
        var (e, rest) := AfterFlush(old(underlay.script), old(buffer.w - buffer.r));
        if e.Some? then n == 0 && err == e && underlay.script == rest
        else if |s| >= buffer.len then (n, err, underlay.script) == Accept(rest, |s|)
        else if |s| <= buffer.size - (if old(buffer.r == buffer.w) then old(buffer.w) else 0)
        then n == |s| && err == None && underlay.script == rest
        else n == 0 && err == Some(ShortBuffer) && underlay.script == rest
    {
      hide *;
      n, err := CollectString(s);
      if err.None? || !Is(err.value, ShortBuffer) {
        return;
      }
      err := Flush();
      if err.Some? {
        return n, err;
      }
      n, err := WriteLong(s);
    }

    method CollectString(s: seq<byte>) returns (n: nat, err: Option<Error>)
      requires Valid()
      modifies buffer`w, buffer.store
      ensures Valid() && n <= |s| && Image() == old(Image()) + s[..n]
      ensures if s == [] || |s| <= old(buffer.size - buffer.w) then n == |s| && err == None
              else n == 0 && err == Some(ShortBuffer) && Is(err.value, ShortBuffer) && buffer.w == old(buffer.w)
    {
      n, err := buffer.WriteString(s);
      ConcatAssoc(underlay.received, old(buffer.Contents()), s[..n]);
      assert old(buffer.Contents()) + [] == old(buffer.Contents());
    }

    /** The end of WriteString, after a flush: past the buffer when it could never hold `s`. */
    method WriteLong(s: seq<byte>) returns (n: nat, err: Option<Error>)
      requires Valid() && buffer.r == buffer.w && s != []
      modifies underlay, buffer`w, buffer.store
      ensures Valid() && n <= |s| && Image() == old(Image()) + s[..n]
      ensures |s| >= buffer.len ==> (n, err, underlay.script) == Accept(old(underlay.script), |s|)
      ensures |s| < buffer.len ==> underlay.script == old(underlay.script)
      ensures |s| < buffer.len && |s| <= old(buffer.size - buffer.w) ==> n == |s| && err == None
      ensures |s| < buffer.len && |s| > old(buffer.size - buffer.w) ==> n == 0 && err == Some(ShortBuffer)
    {
      hide *;
      Drained();
      if |s| >= buffer.len {
        n, err := underlay.Write(s);
        Drained();
      } else {
        n, err := CollectString(s);
      }
    }

    /** Fails with io.ErrShortBuffer exactly on a buffer that is drained up to its very end: `Flush`
        has nothing to write there and so never makes room. Any other error is that of the flush. */
    method WriteByte(b: byte) returns (err: Option<Error>)
      requires Valid()
      modifies underlay, buffer`r, buffer`w, buffer.store
      ensures Valid() && Image() == if err.None? then old(Image()) + [b] else old(Image())
      ensures var (e, rest) := AfterFlush(old(underlay.script), old(buffer.w - buffer.r));
        if old(buffer.w) < buffer.size then err == None && underlay.script == old(underlay.script)
        else
          && underlay.script == rest
          && err == if e.Some? then Some(Wrapped("flush", e.value))
                    else if old(buffer.r == buffer.w) then Some(ShortBuffer) else None
      ensures err == Some(ShortBuffer) <==> old(buffer.r == buffer.w == buffer.size)
      ensures err == Some(ShortBuffer) ==>
        buffer.r == buffer.w == buffer.size && underlay.received == old(underlay.received)
    {
      Drained();
      FlushOfNothing(underlay.script);
      hide *;
      if buffer.size - buffer.w == 0 {
        var e := Flush();
        if e.Some? {
          return Some(Wrapped("flush", e.value));
        }
      }
      err := Append(b);
    }

    method Append(b: byte) returns (err: Option<Error>)
      requires Valid()
      modifies buffer`w, buffer.store
      ensures Valid() && Image() == if err.None? then old(Image()) + [b] else old(Image())
      ensures err == if old(buffer.w) == buffer.size then Some(ShortBuffer) else None
      ensures err.Some? ==> buffer.w == old(buffer.w)
    {
      ghost var received, pending := underlay.received, buffer.Contents();
      err := buffer.WriteByte(b);
      if err.None? {
        ConcatAssoc(received, pending, [b]);
      }
    }

    /** Copies a stream through the buffer. On a buffer that is drained up to its very end, and on one
        for nothing, it reads nothing and fails with io.ErrShortWrite. */
    method ReadFrom(src: Source) returns (n: nat, err: Option<Error>, ghost taken: seq<byte>)
      requires Valid()
      modifies underlay, buffer`r, buffer`w, buffer.store, src
      ensures Valid() && n == |taken| && Image() == old(Image()) + taken
      ensures old(RoomAfterFlush()) <= buffer.size && (err.None? ==> buffer.r == buffer.w)
      ensures Relayed(taken, err, src.script, underlay.script) ==
        Reading(old(src.script), old(underlay.script), old(buffer.w - buffer.r), old(RoomAfterFlush()), buffer.size)
    {
      hide *;
      assert Image() + [] == Image();
      Drained();
      RoomIs();
      ReadingCases(src.script, underlay.script, buffer.w - buffer.r, RoomAfterFlush(), buffer.size);
      err := Flush();
      if err.Some? {
        return 0, Some(Wrapped("flush", err.value)), [];
      }
      n, err, taken := RelayAll(src);
    }

    /** Close, without the underlying Close: it frees the buffer and does not flush it. The accepted
        bytes have all arrived exactly when none was pending. */
    method Close(alloc: Allocator)
      requires Valid() && alloc.Valid() && (buffer.live && buffer.managed ==> buffer.store !in alloc.Pooled())
      modifies buffer`live, alloc
      ensures alloc.Valid() && underlay.received == old(underlay.received)
      ensures underlay.received == old(Image()) <==> old(buffer.r == buffer.w)
      ensures buffer.ref <= 0 ==>
        !buffer.live
        && alloc.Pooled() == old(alloc.Pooled()) + if old(buffer.live) && buffer.managed && 0 < buffer.len then {buffer.store} else {}
    {
      assert |Image()| == |underlay.received| + (buffer.w - buffer.r);
      buffer.Free(alloc);
    }

    /** What a successful flush leaves free: a drained buffer keeps its cursors. */
    ghost function RoomAfterFlush(): nat
      requires Valid()
      reads buffer
    {
      buffer.size - if buffer.r == buffer.w then buffer.w else 0
    }

    lemma RoomIs()
      requires Valid()
      ensures RoomAfterFlush() == buffer.size - if buffer.r == buffer.w then buffer.w else 0
    {
    }

    /** The loop of ReadFrom. */
    method RelayAll(src: Source) returns (n: nat, err: Option<Error>, ghost taken: seq<byte>)
      requires Valid() && buffer.r == buffer.w <= buffer.size
      modifies underlay, buffer`r, buffer`w, buffer.store, src
      ensures Valid() && n == |taken| && Image() == old(Image()) + taken && (err.None? ==> buffer.r == buffer.w)
      ensures old(buffer.w) == buffer.size ==>
        err == Some(Error.ShortWrite) && taken == [] && src.script == old(src.script) && underlay.script == old(underlay.script)
      ensures old(buffer.w) < buffer.size ==>
        Relayed(taken, err, src.script, underlay.script)
        == Relay(old(src.script), old(underlay.script), old(buffer.size - buffer.w), buffer.size)
    {
      hide *;
      FlushOfNothing(underlay.script);
      n, taken := 0, [];
      if buffer.w < buffer.size {
        OnwardStart(Relay(src.script, underlay.script, buffer.size - buffer.w, buffer.size));
      }
      assert Image() + [] == Image();
      while true
        invariant Valid() && n == |taken| && buffer.r == buffer.w <= buffer.size && Image() == old(Image()) + taken
        invariant old(buffer.w) == buffer.size ==>
          buffer.w == buffer.size && taken == [] && src.script == old(src.script) && underlay.script == old(underlay.script)
        invariant old(buffer.w) < buffer.size ==>
          && buffer.w < buffer.size
          && Relay(old(src.script), old(underlay.script), old(buffer.size - buffer.w), buffer.size)
             == Onward(taken, Relay(src.script, underlay.script, buffer.size - buffer.w, buffer.size))
        decreases Fuel(src.script)
      {
        ghost var before, source, script, room := taken, src.script, underlay.script, buffer.size - buffer.w;
        var nn, readErr, flushErr, got := Round(src);
        ConcatAssoc(old(Image()), before, got);
        if 0 < room {
          RelayStep(source, script, room, buffer.size, before);
        }
        n, taken := n + nn, before + got;
        if flushErr.Some? {
          return n, Some(Wrapped("flush", flushErr.value)), taken;
        }
        if readErr.Some? {
          if readErr.value == EOF {
            return n, None, taken;
          }
          return n, readErr, taken;
        }
      }
    }

    /** One round of the loop above: a read into the empty buffer, and its flush. */
    method Round(src: Source)
      returns (n: nat, readErr: Option<Error>, flushErr: Option<Error>, ghost got: seq<byte>)
      requires Valid() && buffer.r == buffer.w
      modifies underlay, buffer`r, buffer`w, buffer.store, src
      ensures Valid() && n == |got| && Image() == old(Image()) + got && buffer.w <= buffer.size
      ensures (flushErr, underlay.script) == AfterFlush(old(underlay.script), |got|)
      ensures flushErr.None? ==> buffer.r == buffer.w == if got == [] then old(buffer.w) else 0
      ensures old(buffer.w) == buffer.size ==>
        got == [] && readErr == Some(Error.ShortWrite) && src.script == old(src.script)
      ensures old(buffer.w) < buffer.size ==> (got, readErr, src.script) == Serve(old(src.script), old(buffer.size - buffer.w))
      ensures readErr.None? ==> Fuel(src.script) < Fuel(old(src.script))
    {
      ghost var room := buffer.size - buffer.w;
      ServeLaw(src.script, room);
      n, readErr := Take(src);
      got := buffer.Contents();
      flushErr := Flush();
    }

    /** The read of a round. */
    method Take(src: Source) returns (n: nat, err: Option<Error>)
      requires Valid() && buffer.r == buffer.w
      modifies buffer`w, buffer.store, src
      ensures Valid() && n == |buffer.Contents()| == buffer.w - buffer.r && Image() == old(Image()) + buffer.Contents()
      ensures old(buffer.w) == buffer.size ==>
        n == 0 && err == Some(Error.ShortWrite) && src.script == old(src.script)
      ensures old(buffer.w) < buffer.size ==>
        (buffer.Contents(), err, src.script) == Serve(old(src.script), old(buffer.size - buffer.w))
    {
      assert buffer.Contents() == [] && Image() == underlay.received + [] == underlay.received;
      ghost var next := Serve(src.script, buffer.size - buffer.w).0;
      n, err := buffer.ReadFromOnce(src);
      assert [] + next == next;
    }
  }

  lemma FlushOfNothing(script: seq<WriteReply>)
    ensures AfterFlush(script, 0) == (None, script)
    ensures forall p: nat :: AfterFlush(script, p).0.Some? ==> AfterFlush(script, p).0.value.Wrapped?
  {
  }

  /** The same, after `taken` was relayed. */
  ghost function Onward(taken: seq<byte>, r: Relayed): Relayed { r.(taken := taken + r.taken) }

  lemma OnwardStart(r: Relayed)
    ensures Onward([], r) == r
  {
    assert [] + r.taken == r.taken;
  }

  /** One round of the loop of ReadFrom. */
  lemma RelayStep(src: seq<Reply>, sink: seq<WriteReply>, room: nat, size: nat, taken: seq<byte>)
    requires 0 < room <= size
    ensures var (got, e, rest) := Serve(src, room);
      var (flushErr, sink') := AfterFlush(sink, |got|);
      var r := Onward(taken, Relay(src, sink, room, size));
      && (flushErr.Some? ==> r == Relayed(taken + got, Some(Wrapped("flush", flushErr.value)), rest, sink'))
      && (flushErr.None? && e.Some? ==> r == Relayed(taken + got, if e == Some(EOF) then None else e, rest, sink'))
      && (flushErr.None? && e.None? ==>
           r == Onward(taken + got, Relay(rest, sink', if got == [] then room else size, size)))
  {
    ServeLaw(src, room);
    var (got, e, rest) := Serve(src, room);
    var (flushErr, sink') := AfterFlush(sink, |got|);
    if flushErr.None? && e.None? {
      ConcatAssoc(taken, got, Relay(rest, sink', if got == [] then room else size, size).taken);
    }
  }

  /** The bytes an operation asks the writer to take; a prefix of them is taken. */
  ghost predicate Takes(op: Op, ack: seq<byte>) {
    match op
    case OpWrite(p) => ack <= p
    case OpWriteString(s) => ack <= s
    case OpWriteByte(b) => ack <= [b]
    case OpFlush => ack == []
    case OpReadFrom(_) => true
  }

  method Perform(bw: BufWriter, op: Op) returns (ghost ack: seq<byte>)
    requires bw.Valid()
    modifies bw.underlay, bw.buffer`r, bw.buffer`w, bw.buffer.store, (if op.OpReadFrom? then {op.src} else {})
    ensures bw.Valid() && Takes(op, ack) && bw.Image() == old(bw.Image()) + ack
    ensures op.OpReadFrom? ==>
      Stream(old(op.src.script)) == ack || Stream(old(op.src.script)) == ack + Stream(op.src.script)
  {
    match op
    case OpWrite(p) =>
      var n, err := bw.Write(p);
      ack := p[..n];
    case OpWriteString(s) =>
      var n, err := bw.WriteString(s);
      ack := s[..n];
    case OpWriteByte(b) =>
      var err := bw.WriteByte(b);
      ack := if err.None? then [b] else [];
      assert old(bw.Image()) + [] == old(bw.Image());
    case OpFlush =>
      var err := bw.Flush();
      ack := [];
      assert bw.Image() == old(bw.Image()) + ack;
    case OpReadFrom(src) =>
      ack := PerformRead(bw, src);
  }

  method PerformRead(bw: BufWriter, src: Source) returns (ghost ack: seq<byte>)
    requires bw.Valid()
    modifies bw.underlay, bw.buffer`r, bw.buffer`w, bw.buffer.store, src
    ensures bw.Valid() && bw.Image() == old(bw.Image()) + ack
    ensures Stream(old(src.script)) == ack || Stream(old(src.script)) == ack + Stream(src.script)
  {
    bw.Drained();
    ghost var source, script, pending, room := src.script, bw.underlay.script, bw.buffer.w - bw.buffer.r, bw.RoomAfterFlush();
    hide *;
    var n, err;
    n, err, ack := bw.ReadFrom(src);
    ReadingLaw(source, script, pending, room, bw.buffer.size);
  }

  /** Conservation over every run: after any operations, against any underlying writer, the bytes
      accepted so far are those the writer received followed by those still pending. */
  method Run(bw: BufWriter, ops: seq<Op>) returns (ghost acks: seq<seq<byte>>)
    requires bw.Valid()
    modifies bw.underlay, bw.buffer`r, bw.buffer`w, bw.buffer.store, (set o | o in ops && o.OpReadFrom? :: o.src)
    ensures bw.Valid() && |acks| == |ops|
    ensures forall i :: 0 <= i < |ops| ==> Takes(ops[i], acks[i])
    ensures bw.Image() == old(bw.Image()) + Concat(acks)
  {
    acks := [];
    assert bw.Image() == old(bw.Image()) + Concat(acks);
    for i := 0 to |ops|
      invariant bw.Valid() && |acks| == i
      invariant forall j :: 0 <= j < i ==> Takes(ops[j], acks[j])
      invariant bw.Image() == old(bw.Image()) + Concat(acks)
    {
      assert ops[i] in ops;
      ghost var ack := Perform(bw, ops[i]);
      assert (acks + [ack])[..i] == acks;
      ConcatAssoc(old(bw.Image()), Concat(acks), ack);
      acks := acks + [ack];
    }
  }

  /** After a flush, WriteByte fails with io.ErrShortBuffer exactly when the buffer was drained up to
      its end before, or the flush itself failed and yet wrote everything out of a full buffer. */
  method ByteAfterFlush(bw: BufWriter, b: byte) returns (e1: Option<Error>, e2: Option<Error>)
    requires bw.Valid()
    modifies bw.underlay, bw.buffer`r, bw.buffer`w, bw.buffer.store
    ensures bw.Valid() && bw.Image() == if e2.None? then old(bw.Image()) + [b] else old(bw.Image())
    ensures e1 == AfterFlush(old(bw.underlay.script), old(bw.buffer.w - bw.buffer.r)).0
    ensures e2 == Some(ShortBuffer) <==>
      || old(bw.buffer.r == bw.buffer.w == bw.buffer.size)
      || (old(bw.buffer.r < bw.buffer.w == bw.buffer.size) &&
          var d := Drain(old(bw.underlay.script), old(bw.buffer.w - bw.buffer.r), 0); d.err.Some? && d.left == 0)
    ensures e2 == Some(ShortBuffer) ==> bw.buffer.r == bw.buffer.w == bw.buffer.size
  {
    hide *;
    bw.Drained();
    ghost var r0, w0, size, script := bw.buffer.r, bw.buffer.w, bw.buffer.size, bw.underlay.script;
    FlushError(script, w0 - r0);
    e1 := bw.Flush();
    ghost var r1, w1 := bw.buffer.r, bw.buffer.w;
    e2 := bw.WriteByte(b);
    assert e2 == Some(ShortBuffer) <==> r1 == w1 == size;
    if r0 < w0 {
      ghost var left := Drain(script, w0 - r0, 0).left;
      assert if e1.Some? then w1 == w0 && r1 == w0 - left else r1 == w1 == 0;
    }
  }

  /** A flush fails as the writing out of the pending bytes does, and says that it was the flush. */
  lemma FlushReports(script: seq<WriteReply>, pending: nat)
    requires 0 < pending
    ensures AfterFlush(script, pending).0.Some? <==> Drain(script, pending, 0).err.Some?
    ensures Drain(script, pending, 0).err.Some? ==>
      && AfterFlush(script, pending).0 == Some(Wrapped("flush", Drain(script, pending, 0).err.value))
      && Innermost(AfterFlush(script, pending).0.value) == Innermost(Drain(script, pending, 0).err.value)
  {
  }

  lemma FlushError(script: seq<WriteReply>, pending: nat)
    ensures 0 < pending ==> AfterFlush(script, pending).0.Some? == Drain(script, pending, 0).err.Some?
    ensures AfterFlush(script, 0).0.None?
  {
  }

  /** For example: one byte waits in a buffer for one; the writer takes it, reports an error once, and
      is fine ever after. No further byte gets in. */
  method DrainedBufferWedges(a: byte, b: byte) returns (e1: Option<Error>, e2: Option<Error>, bw: BufWriter)
    ensures bw.Valid() && bw.underlay.received == [a] && bw.underlay.script == []
    ensures e1 == Some(Wrapped("flush", Other(5))) && e2 == Some(ShortBuffer)
    ensures bw.buffer.r == bw.buffer.w == bw.buffer.size == 1
  {
    var sink := new Sink([WriteReply(1, Some(Other(5)))], NotNeeded);
    bw := OneBytePending(a, sink);
    TakesOneAndFails(sink.script);
    hide *;
    e1 := bw.Flush();
    e2 := bw.WriteByte(b);
    bw.Drained();
  }

  lemma TakesOneAndFails(script: seq<WriteReply>)
    requires script == [WriteReply(1, Some(Other(5)))]
    ensures AfterFlush(script, 1) == (Some(Wrapped("flush", Other(5))), []) && Drain(script, 1, 0).left == 0
  {
  }

  method OneBytePending(a: byte, sink: Sink) returns (bw: BufWriter)
    requires sink.received == []
    ensures bw.underlay == sink && fresh(bw.buffer) && fresh(bw.buffer.store) && bw.Valid() && bw.Image() == [a]
    ensures bw.buffer.r == 0 && bw.buffer.w == bw.buffer.size == 1
  {
    var bytes := new byte[1](_ => a);
    var buffer := new Buffer.As(bytes);
    assert buffer.Contents() == [a] == [] + [a];
    bw := new BufWriter(sink, buffer);
  }
}
