/**
 Copying between two connections through a kernel pipe.

 The kernel plays a script on each side: how many bytes a splice call moves, when it would block,
 what the wait after that brings, and when a connection or the kernel reports an error.
 */
module Splicing {
  import opened Prelude
  import opened Alloc
  import opened Peers
  import opened Buffers
  import opened Counters
  import opened Sums

  const MAX_SPLICE: nat := 0x10_0000

  datatype Failure = EINVAL | ENOSYS | Other(code: int)

  /** The source side. `Lost` is reported by the connection before the callback runs (`byConn`) or
      by the splice call; an empty `Data` and the end of the script are the end of the stream. */
  datatype InEvent =
    | Data(bytes: seq<byte>)
    | NotReady(wait: Option<Failure>)
    | Lost(e: Failure, byConn: bool)

  datatype OutEvent =
    | Takes(k: nat)
    | Full(wait: Option<Failure>)
    | Gone(e: Failure, byConn: bool)

  datatype SpliceError = NoPipe | FromConn(e: Failure) | ReadFailed(e: Failure) | WriteFailed(e: Failure)

  /** What the source still offers. */
  function Offered(script: seq<InEvent>): seq<byte> {
    if script == [] then []
    else match script[0]
      case Data(bytes) => if bytes == [] then [] else bytes + Offered(script[1..])
      case NotReady(wait) => if wait.Some? then [] else Offered(script[1..])
      case Lost(_, _) => []
  }

  /** How that ends, and whether the connection itself reports it. */
  function Ending(script: seq<InEvent>): (Option<Failure>, bool) {
    if script == [] then (None, false)
    else match script[0]
      case Data(bytes) => if bytes == [] then (None, false) else Ending(script[1..])
      case NotReady(wait) => if wait.Some? then (wait, true) else Ending(script[1..])
      case Lost(e, byConn) => (Some(e), byConn)
  }

  function InFuel(script: seq<InEvent>): nat {
    if script == [] then 0
    else 1 + (if script[0].Data? then |script[0].bytes| else 0) + InFuel(script[1..])
  }

  class In {
    var script: seq<InEvent>

    constructor (script: seq<InEvent>)
      ensures this.script == script
    {
      this.script := script;
    }
  }

  class Out {
    var script: seq<OutEvent>
    var received: seq<byte>

    constructor (script: seq<OutEvent>)
      ensures this.script == script && received == []
    {
      this.script, received := script, [];
    }
  }

  class Pipe {
    var content: seq<byte>

    constructor ()
      ensures content == []
    {
      content := [];
    }
  }

  lemma InCons(head: InEvent, tail: seq<InEvent>)
    ensures Offered([head] + tail) ==
      if head.Data? then (if head.bytes == [] then [] else head.bytes + Offered(tail))
      else if head.NotReady? && head.wait.None? then Offered(tail)
      else []
    ensures head.Data? && head.bytes != [] ==> Ending([head] + tail) == Ending(tail)
    ensures InFuel([head] + tail) == 1 + (if head.Data? then |head.bytes| else 0) + InFuel(tail)
  {
    assert ([head] + tail)[1..] == tail;
  }

  // ---------------------------------------------------------------- the source side

  /** Reading goes on past such an event. */
  predicate Goes(event: InEvent) {
    (event.Data? && event.bytes != []) || (event.NotReady? && event.wait.None?)
  }

  /** Event `j` is the first one at which reading ends, or there is none. */
  predicate StopsAt(script: seq<InEvent>, j: nat) {
    j <= |script| && (forall i :: 0 <= i < j ==> Goes(script[i])) && (j < |script| ==> !Goes(script[j]))
  }

  /** All bytes of the first `j` events. */
  function BytesBefore(script: seq<InEvent>, j: nat): seq<byte>
    requires j <= |script|
  {
    if j == 0 then [] else BytesBefore(script, j - 1) + if script[j - 1].Data? then script[j - 1].bytes else []
  }

  lemma {:induction false} BytesTail(script: seq<InEvent>, j: nat)
    requires 0 < j <= |script|
    ensures BytesBefore(script, j) == (if script[0].Data? then script[0].bytes else []) + BytesBefore(script[1..], j - 1)
    decreases j
  {
    var first := if script[0].Data? then script[0].bytes else [];
    if j > 1 {
      BytesTail(script, j - 1);
      assert script[1..][j - 2] == script[j - 1];
      ConcatAssoc(first, BytesBefore(script[1..], j - 2), if script[j - 1].Data? then script[j - 1].bytes else []);
    } else {
      assert [] + first == first + [];
    }
  }

  lemma StopsTail(script: seq<InEvent>, j: nat)
    requires script != [] && StopsAt(script, j) && 0 < j
    ensures StopsAt(script[1..], j - 1) && (j < |script| ==> script[1..][j - 1] == script[j])
  {
    assert forall i :: 0 < i < |script| ==> script[i] == script[1..][i - 1];
  }

  /** What a source offers is every byte before the event that ends it; and how it ends is what that event
      says: cleanly with an empty read or when there is none, by a wait that fails, or by an error that the
      connection or the splice call reports. */
  lemma {:induction false} EndsAt(script: seq<InEvent>, j: nat)
    requires StopsAt(script, j)
    ensures Offered(script) == BytesBefore(script, j)
    ensures Ending(script) ==
      if j == |script| then (None, false)
      else
        match script[j]
        case Data(_) => (None, false)
        case NotReady(wait) => (wait, true)
        case Lost(e, byConn) => (Some(e), byConn)
    decreases j
  {
    if j > 0 {
      StopsTail(script, j);
      EndsAt(script[1..], j - 1);
      BytesTail(script, j);
      assert Goes(script[0]);
      assert [] + BytesBefore(script[1..], j - 1) == BytesBefore(script[1..], j - 1);
    }
  }

  lemma {:induction false} SomeEnd(script: seq<InEvent>) returns (j: nat)
    ensures StopsAt(script, j)
  {
    j := 0;
    if script != [] && Goes(script[0]) {
      var i := SomeEnd(script[1..]);
      j := i + 1;
      assert forall h :: 0 < h < |script| ==> script[h] == script[1..][h - 1];
    }
  }

  /** The source ends cleanly: no failed wait and no error before its end. */
  ghost predicate CleanEnd(script: seq<InEvent>) {
    exists j: nat :: StopsAt(script, j) && (j == |script| || script[j].Data?)
  }

  lemma CleanEndExactlyWhen(script: seq<InEvent>)
    ensures CleanEnd(script) <==> Ending(script).0.None?
  {
    var j := SomeEnd(script);
    EndsAt(script, j);
    if i: nat :| StopsAt(script, i) && (i == |script| || script[i].Data?) {
      EndsAt(script, i);
    }
  }

  /** One RawConn.Read: the bytes moved into the pipe, the error, whether the connection reports it,
      and the script that is left. */
  function Next(script: seq<InEvent>): (seq<byte>, Option<Failure>, bool, seq<InEvent>) {
    if script == [] then ([], None, false, [])
    else if script[0].NotReady? then
      if script[0].wait.Some? then ([], script[0].wait, true, script[1..]) else Next(script[1..])
    else if script[0].Lost? then ([], Some(script[0].e), script[0].byConn, script[1..])
    else if |script[0].bytes| <= MAX_SPLICE then (script[0].bytes, None, false, script[1..])
    else (script[0].bytes[..MAX_SPLICE], None, false, [Data(script[0].bytes[MAX_SPLICE..])] + script[1..])
  }

  /** Each takes the next bytes off what is offered, or meets the end. */
  lemma {:induction false} NextLaw(script: seq<InEvent>)
    ensures var (got, e, byConn, rest) := Next(script);
      && |got| <= 0x10_0000 && InFuel(rest) <= InFuel(script)
      && (script != [] && script[0].Data? ==> got == script[0].bytes[..Min(|script[0].bytes|, 0x10_0000)])
      && (e.None? && got != [] ==>
           Offered(script) == got + Offered(rest) && Ending(rest) == Ending(script) && InFuel(rest) < InFuel(script))
      && (e.Some? || got == [] ==> got == [] && Offered(script) == [] && (e, byConn) == Ending(script))
  {
    if script != [] {
      var event, rest := script[0], script[1..];
      assert script == [event] + rest;
      InCons(event, rest);
      if event.NotReady? && event.wait.None? {
        NextLaw(rest);
      } else if event.Data? && MAX_SPLICE < |event.bytes| {
        var more := Data(event.bytes[MAX_SPLICE..]);
        InCons(more, rest);
        ConcatAssoc(event.bytes[..MAX_SPLICE], more.bytes, Offered(rest));
        assert event.bytes == event.bytes[..MAX_SPLICE] + more.bytes;
      }
    }
  }

  /** The lengths of the rounds that the source gives rise to. */
  function Rounds(script: seq<InEvent>): seq<nat>
    decreases InFuel(script)
  {
    NextLaw(script);
    var (got, e, _, rest) := Next(script);
    if e.Some? || got == [] then [] else [|got|] + Rounds(rest)
  }

  lemma {:induction false} RoundsMakeUpTheOffer(script: seq<InEvent>)
    ensures AllPositive(Rounds(script)) && Sum(Rounds(script)) == |Offered(script)|
    decreases InFuel(script)
  {
    NextLaw(script);
    var (got, e, _, rest) := Next(script);
    if e.None? && got != [] {
      RoundsMakeUpTheOffer(rest);
      assert ([|got|] + Rounds(rest))[1..] == Rounds(rest);
    }
  }

  /** One splice call from the source into the pipe. `again` is EAGAIN; `wait` is what the wait for
      the connection will bring. */
  method ReadFunc(src: In, pipe: Pipe)
    returns (readN: nat, readErr: Option<Failure>, again: bool, wait: Option<Failure>, ghost got: seq<byte>)
    modifies src, pipe
    ensures readN == |got| && pipe.content == old(pipe.content) + got
    ensures again <==> old(src.script) != [] && old(src.script)[0].NotReady?
    ensures again ==> got == [] && old(src.script)[0] == NotReady(wait) && src.script == old(src.script)[1..]
    ensures !again ==> (got, readErr, src.script) == (Next(old(src.script)).0, Next(old(src.script)).1, Next(old(src.script)).3)
  {
    readN, readErr, again, wait, got := 0, None, false, None, [];
    assert old(pipe.content) + [] == old(pipe.content);
    if src.script == [] {
      return;
    }
    var event, rest := src.script[0], src.script[1..];
    if event.NotReady? {
      again, wait, src.script := true, event.wait, rest;
      return;
    }
    if event.Lost? {
      readErr, src.script := Some(event.e), rest;
      return;
    }
    var moved := event.bytes;
    if |moved| <= MAX_SPLICE {
      src.script := rest;
    } else {
      moved := moved[..MAX_SPLICE];
      src.script := [Data(event.bytes[MAX_SPLICE..])] + rest;
    }
    readN, got := |moved|, moved;
    pipe.content := pipe.content + moved;
  }

  /** RawConn.Read with that callback: repeated until it is done or the wait fails. */
  method Pull(src: In, pipe: Pipe)
    returns (readN: nat, readErr: Option<Failure>, err: Option<Failure>, ghost got: seq<byte>)
    modifies src, pipe
    ensures readN == |got| && pipe.content == old(pipe.content) + got
    ensures (got, readErr, err.Some?, src.script) == Next(old(src.script))
    ensures err.Some? ==> readErr == err
  {
    assert old(pipe.content) + [] == old(pipe.content);
    while true
      invariant pipe.content == old(pipe.content)
      invariant Next(src.script) == Next(old(src.script))
      decreases |src.script|
    {
      if src.script != [] && src.script[0].Lost? && src.script[0].byConn {
        err := Some(src.script[0].e);
        src.script := src.script[1..];
        return 0, err, err, [];
      }
      var again, wait;
      readN, readErr, again, wait, got := ReadFunc(src, pipe);
      if !again {
        return readN, readErr, None, got;
      }
      if wait.Some? {
        return 0, wait, wait, [];
      }
    }
  }

  // ---------------------------------------------------------------- the destination side

  /** The destination's event is a failure, of its own or of the wait for it. */
  predicate Refuses(event: OutEvent) { event.Gone? || (event.Full? && event.wait.Some?) }

  function Refusal(event: OutEvent): Failure
    requires Refuses(event)
  {
    if event.Gone? then event.e else event.wait.value
  }

  /** One RawConn.Write of `todo` bytes out of the pipe: the bytes that stay, the error, and the
      script that is left. A destination whose script is used up takes everything. */
  function Outflow(script: seq<OutEvent>, todo: nat): (o: (nat, Option<Failure>, seq<OutEvent>))
    requires 0 < todo
    ensures o.0 <= todo && (o.1.None? <==> o.0 == 0)
    decreases |script|
  {
    if script == [] then (0, None, [])
    else if Refuses(script[0]) then (todo, Some(Refusal(script[0])), script[1..])
    else if script[0].Full? || Min(script[0].k, todo) == 0 then Outflow(script[1..], todo)
    else if Min(script[0].k, todo) == todo then (0, None, script[1..])
    else Outflow(script[1..], todo - Min(script[0].k, todo))
  }

  /** What the destination takes in its first `j` events. */
  function TakenIn(script: seq<OutEvent>, j: nat): nat
    requires j <= |script|
  {
    if j == 0 then 0 else TakenIn(script, j - 1) + if script[j - 1].Takes? then script[j - 1].k else 0
  }

  lemma {:induction false} TakenInTail(script: seq<OutEvent>, j: nat)
    requires 0 < j <= |script|
    ensures TakenIn(script, j) == (if script[0].Takes? then script[0].k else 0) + TakenIn(script[1..], j - 1)
    decreases j
  {
    if j > 1 {
      TakenInTail(script, j - 1);
      assert script[1..][j - 2] == script[j - 1];
    }
  }

  /** Through any number of short writes and EAGAINs, a write fails exactly when the destination
      refuses before it has taken everything. */
  lemma {:induction false} OutflowFailsExactlyWhen(script: seq<OutEvent>, todo: nat)
    requires 0 < todo
    ensures Outflow(script, todo).1.Some? <==>
      exists j :: 0 <= j < |script| && Refuses(script[j]) && TakenIn(script, j) < todo
    decreases |script|
  {
    if script != [] {
      var k := if script[0].Takes? then script[0].k else 0;
      if Refuses(script[0]) {
        assert TakenIn(script, 0) == 0;
      } else if k < todo {
        var rest := script[1..];
        OutflowFailsExactlyWhen(rest, todo - k);
        assert Outflow(script, todo) == Outflow(rest, todo - k);
        if i :| 0 <= i < |rest| && Refuses(rest[i]) && TakenIn(rest, i) < todo - k {
          TakenInTail(script, i + 1);
          assert script[i + 1] == rest[i];
        }
        if j :| 0 <= j < |script| && Refuses(script[j]) && TakenIn(script, j) < todo {
          assert 0 < j && rest[j - 1] == script[j];
          TakenInTail(script, j);
        }
      } else {
        forall j | 0 <= j < |script| && Refuses(script[j])
          ensures todo <= TakenIn(script, j)
        {
          TakenInTail(script, j);
        }
      }
    }
  }

  /** A write that fails failed at the first event that refuses: with the error of the connection, of the
      splice call or of the wait, and with everything through that was taken before. */
  lemma {:induction false} OutflowFailure(script: seq<OutEvent>, todo: nat) returns (j: nat)
    requires 0 < todo && Outflow(script, todo).1.Some?
    ensures j < |script| && (forall i :: 0 <= i < j ==> !Refuses(script[i])) && TakenIn(script, j) < todo
    ensures Outflow(script, todo).0 == todo - TakenIn(script, j)
    ensures
      match script[j]
      case Takes(_) => false
      case Full(wait) => wait.Some? && Outflow(script, todo).1 == wait
      case Gone(e, _) => Outflow(script, todo).1 == Some(e)
    decreases |script|
  {
    if Refuses(script[0]) {
      j := 0;
    } else {
      var k := if script[0].Takes? then script[0].k else 0;
      j := OutflowFailure(script[1..], todo - k);
      j := j + 1;
      TakenInTail(script, j);
      assert forall h :: 0 < h < |script| ==> script[h] == script[1..][h - 1];
    }
  }

  /** The splice calls of the write callback: from the pipe until `size` bytes are out, an error, or
      EAGAIN. `left` is writeSize afterwards. */
  method WriteFunc(dst: Out, pipe: Pipe, size: nat)
    returns (left: nat, writeErr: Option<Failure>, again: bool, wait: Option<Failure>)
    requires 0 < size <= |pipe.content|
    modifies dst, pipe
    ensures left <= size
    ensures Sent(old(dst.received), dst.received, old(pipe.content), size - left, pipe.content)
    ensures again ==> 0 < left && writeErr == None && |dst.script| < |old(dst.script)|
    ensures Outflow(old(dst.script), size) ==
      if !again then (left, writeErr, dst.script)
      else if wait.Some? then (left, wait, dst.script)
      else Outflow(dst.script, left)
  {
    ghost var all, received := pipe.content, dst.received;
    left, writeErr, again, wait := size, None, false, None;
    SentNothing(received, all);
    hide Sent;
    while left > 0
      invariant left <= size && writeErr == None && !again && |dst.script| <= |old(dst.script)|
      invariant Sent(received, dst.received, all, size - left, pipe.content) && left <= |pipe.content|
      invariant Outflow(old(dst.script), size) == if left == 0 then (0, None, dst.script) else Outflow(dst.script, left)
      decreases |dst.script|, left
    {
      var moved := left;
      if dst.script != [] {
        var event := dst.script[0];
        dst.script := dst.script[1..];
        if event.Full? {
          again, wait := true, event.wait;
          return;
        }
        if event.Gone? {
          writeErr := Some(event.e);
          return;
        }
        moved := Min(event.k, left);
      }
      ghost var mid, kept := dst.received, pipe.content;
      dst.received := dst.received + pipe.content[..moved];
      pipe.content := pipe.content[moved..];
      SentMore(received, mid, dst.received, all, size - left, kept, moved, pipe.content);
      left := left - moved;
    }
  }

  /** RawConn.Write with that callback. */
  method Push(dst: Out, pipe: Pipe, size: nat)
    returns (writeErr: Option<Failure>, err: Option<Failure>, ghost left: nat)
    requires 0 < size <= |pipe.content|
    modifies dst, pipe
    ensures (left, writeErr, dst.script) == Outflow(old(dst.script), size) && left <= size
    ensures Sent(old(dst.received), dst.received, old(pipe.content), size - left, pipe.content)
    ensures err.Some? ==> writeErr == err
  {
    ghost var all, received := pipe.content, dst.received;
    var todo := size;
    SentNothing(received, all);
    hide Sent;
    while true
      invariant 0 < todo <= size && todo <= |pipe.content|
      invariant Sent(received, dst.received, all, size - todo, pipe.content)
      invariant Outflow(old(dst.script), size) == Outflow(dst.script, todo)
      decreases |dst.script|
    {
      if dst.script != [] && dst.script[0].Gone? && dst.script[0].byConn {
        err := Some(dst.script[0].e);
        dst.script := dst.script[1..];
        return err, err, todo;
      }
      ghost var mid, kept, before := dst.received, pipe.content, todo;
      var again, wait;
      todo, writeErr, again, wait := WriteFunc(dst, pipe, todo);
      SentFurther(received, mid, dst.received, all, size - before, kept, before - todo, pipe.content);
      if !again {
        return writeErr, None, todo;
      }
      if wait.Some? {
        return wait, wait, todo;
      }
    }
  }

  lemma SentFurther(before: seq<byte>, mid: seq<byte>, now: seq<byte>, all: seq<byte>, n: nat,
                    kept: seq<byte>, k: nat, left: seq<byte>)
    requires Sent(before, mid, all, n, kept) && Sent(mid, now, kept, k, left)
    ensures Sent(before, now, all, n + k, left) && |left| == |kept| - k
  {
    SentMore(before, mid, now, all, n, kept, k, left);
  }

  /** The pipe is a queue: `d` bytes of `q` have left it and were delivered in order. */
  ghost predicate Flowing(before: seq<byte>, now: seq<byte>, content: seq<byte>, q: seq<byte>, d: nat) {
    d <= |q| && now == before + q[..d] && content == q[d..]
  }

  lemma FlowStart(before: seq<byte>, content: seq<byte>)
    ensures Flowing(before, before, content, content + [], 0)
  {
    assert content + [] == content;
  }

  lemma FlowIn(before: seq<byte>, now: seq<byte>, c0: seq<byte>, c1: seq<byte>, p: seq<byte>, taken: seq<byte>,
      d: nat, got: seq<byte>)
    requires Flowing(before, now, c0, p + taken, d) && c1 == c0 + got
    ensures Flowing(before, now, c1, p + (taken + got), d)
  {
    var q := p + taken;
    ConcatAssoc(p, taken, got);
    assert (q + got)[..d] == q[..d] && (q + got)[d..] == q[d..] + got;
  }

  lemma FlowOut(before: seq<byte>, now0: seq<byte>, now1: seq<byte>, c0: seq<byte>, c1: seq<byte>,
      q: seq<byte>, d: nat, k: nat)
    requires Flowing(before, now0, c0, q, d) && k <= |c0| && now1 == now0 + c0[..k] && c1 == c0[k..]
    ensures Flowing(before, now1, c1, q, d + k)
  {
    TakeStep(q, d, k);
    ConcatAssoc(before, q[..d], q[d..][..k]);
  }

  /** Both lists of counters were called for `n` bytes. */
  ghost predicate ToldBoth(t0: CounterId -> int, t1: CounterId -> int, readers: seq<CounterId>,
      writers: seq<CounterId>, n: nat) {
    forall c: CounterId :: t1(c) == t0(c) + Charge(n, readers, c) + Charge(n, writers, c)
  }

  lemma ToldBothStart(t: CounterId -> int, readers: seq<CounterId>, writers: seq<CounterId>)
    ensures ToldBoth(t, t, readers, writers, 0)
  {
  }

  /** The counters after one pass of the loop. */
  method TellBoth(led: Ledger, ghost t0: CounterId -> int, readers: seq<CounterId>, writers: seq<CounterId>,
      ghost n: nat, k: nat)
    requires ToldBoth(t0, led.totals, readers, writers, n)
    modifies led
    ensures ToldBoth(t0, led.totals, readers, writers, n + k)
  {
    led.Call(readers, k);
    led.Call(writers, k);
    forall c: CounterId
      ensures led.totals(c) == t0(c) + Charge(n + k, readers, c) + Charge(n + k, writers, c)
    {
      ChargeAdd(n, k, readers, c);
      ChargeAdd(n, k, writers, c);
    }
  }

  // ---------------------------------------------------------------- the loop

  /** `taken` bytes left the source, `d` of them are through the pipe, `n` are counted; the error of
      the destination, and what is left of its script. */
  datatype Course = Course(taken: nat, d: nat, n: nat, err: Option<Failure>, rest: seq<OutEvent>)

  function Past(k: nat, c: Course): Course { c.(taken := k + c.taken, d := k + c.d, n := k + c.n) }

  /** The rounds of `splice` on the destination's side. */
  function Flow(rounds: seq<nat>, script: seq<OutEvent>): Course
    requires AllPositive(rounds)
    decreases |rounds|
  {
    if rounds == [] then Course(0, 0, 0, None, script)
    else
      var (left, e, rest) := Outflow(script, rounds[0]);
      if e.Some? then Course(rounds[0], rounds[0] - left, 0, e, rest)
      else Past(rounds[0], Flow(rounds[1..], rest))
  }

  lemma {:induction false} FlowLaw(rounds: seq<nat>, script: seq<OutEvent>)
    requires AllPositive(rounds)
    ensures var c := Flow(rounds, script);
      c.n <= c.d <= c.taken <= Sum(rounds) && (c.err.Some? <==> c.d < c.taken) && (c.err.None? ==> c.n == c.taken == Sum(rounds))
    decreases |rounds|
  {
    if rounds != [] {
      FlowLaw(rounds[1..], Outflow(script, rounds[0]).2);
    }
  }

  /** Round `b` fails: those before it go through, and in it the destination refuses too early. */
  ghost predicate RoundFails(rounds: seq<nat>, script: seq<OutEvent>, b: nat)
    requires AllPositive(rounds)
  {
    && b < |rounds|
    && var before := Flow(rounds[..b], script);
      && before.err.None?
      && exists j :: 0 <= j < |before.rest| && Refuses(before.rest[j]) && TakenIn(before.rest, j) < rounds[b]
  }

  lemma {:induction false} FlowFirst(rounds: seq<nat>, script: seq<OutEvent>, b: nat)
    requires AllPositive(rounds) && b < |rounds|
    ensures var before := Flow(rounds[..b], script);
      before.err.None? && Outflow(before.rest, rounds[b]).1.Some? ==> Flow(rounds, script).err.Some?
    decreases |rounds|
  {
    if b > 0 {
      assert rounds[..b][1..] == rounds[1..][..b - 1];
      if Outflow(script, rounds[0]).1.None? {
        FlowFirst(rounds[1..], Outflow(script, rounds[0]).2, b - 1);
      }
    }
  }

  lemma {:induction false} FlowFailure(rounds: seq<nat>, script: seq<OutEvent>) returns (b: nat)
    requires AllPositive(rounds) && Flow(rounds, script).err.Some?
    ensures b < |rounds| && Flow(rounds[..b], script).err.None?
    ensures Outflow(Flow(rounds[..b], script).rest, rounds[b]).1.Some?
    ensures var c, o := Flow(rounds, script), Outflow(Flow(rounds[..b], script).rest, rounds[b]);
      c.err == o.1 && c.n == Sum(rounds[..b]) && c.d == c.n + (rounds[b] - o.0) && c.taken == c.n + rounds[b]
    decreases |rounds|
  {
    if Outflow(script, rounds[0]).1.Some? {
      b := 0;
    } else {
      var c := FlowFailure(rounds[1..], Outflow(script, rounds[0]).2);
      b := c + 1;
      assert rounds[..b][1..] == rounds[1..][..c];
    }
  }

  /** The destination fails, by what source and destination are set to do before the call. */
  ghost predicate DestinationFails(source: seq<InEvent>, script: seq<OutEvent>) {
    RoundsMakeUpTheOffer(source);
    exists b :: 0 <= b < |Rounds(source)| && RoundFails(Rounds(source), script, b)
  }

  /** What a splice does, from the two scripts. */
  function Run(source: seq<InEvent>, script: seq<OutEvent>): (c: Course)
    ensures c.n <= c.d <= c.taken <= |Offered(source)|
  {
    RoundsMakeUpTheOffer(source);
    FlowLaw(Rounds(source), script);
    Flow(Rounds(source), script)
  }

  lemma RunFailsExactlyWhen(source: seq<InEvent>, script: seq<OutEvent>)
    ensures Run(source, script).err.Some? <==> DestinationFails(source, script)
    ensures Run(source, script).err.Some? <==> Run(source, script).d < Run(source, script).taken
    ensures Run(source, script).err.None? ==> Run(source, script).n == Run(source, script).taken == |Offered(source)|
  {
    var rounds := Rounds(source);
    RoundsMakeUpTheOffer(source);
    FlowLaw(rounds, script);
    if Flow(rounds, script).err.Some? {
      var b := FlowFailure(rounds, script);
      OutflowFailsExactlyWhen(Flow(rounds[..b], script).rest, rounds[b]);
      assert RoundFails(rounds, script, b);
    }
    if b :| 0 <= b < |rounds| && RoundFails(rounds, script, b) {
      OutflowFailsExactlyWhen(Flow(rounds[..b], script).rest, rounds[b]);
      FlowFirst(rounds, script, b);
    }
  }

  /** What the end of the source makes of the whole: done, not supported (a plain copy takes over),
      or an error. */
  function Verdict(ending: (Option<Failure>, bool)): (bool, Option<SpliceError>) {
    if ending.0.None? then (true, None)
    else
      var e := ending.0.value;
      if e == EINVAL || e == ENOSYS then (false, if ending.1 then Some(FromConn(e)) else None)
      else (true, Some(ReadFailed(e)))
  }

  /** A splice that fails on the destination's side: the round that fails and the event that refuses in it
      decide the error, the bytes that are through, and those that are counted. */
  lemma RunFailure(source: seq<InEvent>, script: seq<OutEvent>) returns (b: nat, j: nat)
    requires Run(source, script).err.Some?
    ensures AllPositive(Rounds(source)) && b < |Rounds(source)|
    ensures var rounds, c := Rounds(source), Run(source, script);
      var before := Flow(rounds[..b], script);
      && before.err.None? && j < |before.rest| && TakenIn(before.rest, j) < rounds[b]
      && (forall i :: 0 <= i < j ==> !Refuses(before.rest[i]))
      && c.n == Sum(rounds[..b]) && c.taken == c.n + rounds[b] && c.d == c.n + TakenIn(before.rest, j)
      && (match before.rest[j]
          case Takes(_) => false
          case Full(wait) => wait.Some? && c.err == wait
          case Gone(e, _) => c.err == Some(e))
  {
    RoundsMakeUpTheOffer(source);
    var rounds := Rounds(source);
    b := FlowFailure(rounds, script);
    j := OutflowFailure(Flow(rounds[..b], script).rest, rounds[b]);
  }

  /** The answer of a splice whose destination does not fail, by the event that ends the source. */
  lemma VerdictAt(script: seq<InEvent>, j: nat)
    requires StopsAt(script, j)
    ensures j == |script| || script[j].Data? ==> Verdict(Ending(script)) == (true, None)
    ensures j < |script| && script[j].NotReady? ==>
      script[j].wait.Some? &&
      var f := script[j].wait.value;
      Verdict(Ending(script)) ==
        if f == EINVAL || f == ENOSYS then (false, Some(FromConn(f))) else (true, Some(ReadFailed(f)))
    ensures j < |script| && script[j].Lost? ==>
      var f := script[j].e;
      Verdict(Ending(script)) ==
        if f == EINVAL || f == ENOSYS then (false, if script[j].byConn then Some(FromConn(f)) else None)
        else (true, Some(ReadFailed(f)))
  {
    EndsAt(script, j);
  }

  /** All is well exactly when the destination does not fail and the source ends cleanly. */
  lemma DoneExactlyWhen(source: seq<InEvent>, script: seq<OutEvent>)
    ensures (Run(source, script).err.None? && Verdict(Ending(source)) == (true, None)) <==>
      !DestinationFails(source, script) && CleanEnd(source)
  {
    RunFailsExactlyWhen(source, script);
    CleanEndExactlyWhen(source);
    hide Run, DestinationFails, CleanEnd, Ending;
  }

  /** What a splice over a pipe with `content` delivers: the front of that content and what was taken. */
  function Delivered(content: seq<byte>, source: seq<InEvent>, script: seq<OutEvent>): seq<byte> {
    var c := Run(source, script);
    (content + Offered(source)[..c.taken])[..c.d]
  }

  function LeftBehind(content: seq<byte>, source: seq<InEvent>, script: seq<OutEvent>): seq<byte> {
    var c := Run(source, script);
    (content + Offered(source)[..c.taken])[c.d..]
  }

  /** The loop of `splice` over one pipe, whatever is in it at the start. */
  method SpliceThrough(src: In, dst: Out, pipe: Pipe, readers: seq<CounterId>, writers: seq<CounterId>, led: Ledger)
    returns (handed: bool, n: nat, err: Option<SpliceError>)
    modifies src, dst, pipe, led
    ensures dst.received == old(dst.received) + Delivered(old(pipe.content), old(src.script), old(dst.script))
    ensures pipe.content == LeftBehind(old(pipe.content), old(src.script), old(dst.script))
    ensures var c := Run(old(src.script), old(dst.script));
      && n == c.n && ToldBoth(old(led.totals), led.totals, readers, writers, n)
      && (handed, err) == if c.err.Some? then (true, Some(WriteFailed(c.err.value))) else Verdict(old(Ending(src.script)))
    ensures handed && err == None <==> !DestinationFails(old(src.script), old(dst.script)) && CleanEnd(old(src.script))
  {
    hide *;
    DoneExactlyWhen(src.script, dst.script);
    ghost var p, source, script, before := pipe.content, src.script, dst.script, dst.received;
    ghost var taken: seq<byte>, d := [], 0;
    handed, n, err, taken, d := Rounding(src, dst, pipe, readers, writers, led);
    Flowed(p, source, script, before, dst.received, pipe.content, taken, d);
  }

  lemma Flowed(p: seq<byte>, source: seq<InEvent>, script: seq<OutEvent>, before: seq<byte>, now: seq<byte>,
               content: seq<byte>, taken: seq<byte>, d: nat)
    requires Flowing(before, now, content, p + taken, d)
    requires d == Run(source, script).d && |taken| == Run(source, script).taken && taken <= Offered(source)
    ensures now == before + Delivered(p, source, script) && content == LeftBehind(p, source, script)
  {
    assert taken == Offered(source)[..|taken|];
  }

  /** The same, with what was taken as it goes along. */
  method Rounding(src: In, dst: Out, pipe: Pipe, readers: seq<CounterId>, writers: seq<CounterId>, led: Ledger)
    returns (handed: bool, n: nat, err: Option<SpliceError>, ghost taken: seq<byte>, ghost d: nat)
    modifies src, dst, pipe, led
    ensures Flowing(old(dst.received), dst.received, pipe.content, old(pipe.content) + taken, d)
    ensures taken <= old(Offered(src.script)) && ToldBoth(old(led.totals), led.totals, readers, writers, n)
    ensures var c := Run(old(src.script), old(dst.script));
      && n == c.n && d == c.d && |taken| == c.taken
      && (handed, err) == if c.err.Some? then (true, Some(WriteFailed(c.err.value))) else Verdict(old(Ending(src.script)))
  {
    hide *;
    ghost var offered, ending, before, p := Offered(src.script), Ending(src.script), dst.received, pipe.content;
    ghost var t0, whole := led.totals, Run(src.script, dst.script);
    handed, n, taken, d := true, 0, [], 0;
    FlowStart(before, p);
    ToldBothStart(led.totals, readers, writers);
    RunStart(src.script, dst.script);
    TakenStart(offered);
    while true
      invariant Flowing(before, dst.received, pipe.content, p + taken, d)
      invariant Taking(offered, taken, Offered(src.script)) && Ending(src.script) == ending
      invariant handed && n == d == |taken| && ToldBoth(t0, led.totals, readers, writers, n)
      invariant AllPositive(Rounds(src.script)) && whole == Past(n, Flow(Rounds(src.script), dst.script))
      decreases InFuel(src.script)
    {
      ghost var source, script, c0 := src.script, dst.script, pipe.content;
      NextLaw(source);
      RoundStep(source, script);
      var readN, readErr, connErr;
      ghost var got;
      readN, readErr, connErr, got := Pull(src, pipe);
      FlowIn(before, dst.received, c0, pipe.content, p, taken, d, got);
      TakenFurther(offered, taken, Offered(source), got, Offered(src.script));
      PastEnd(n, script);
      VerdictCases(ending);
      if readErr.Some? {
        assert taken + [] == taken;
        if readErr.value == EINVAL || readErr.value == ENOSYS {
          return false, n, if connErr.Some? then Some(FromConn(connErr.value)) else None, taken, d;
        }
        return true, n, Some(ReadFailed(readErr.value)), taken, d;
      }
      if readN == 0 {
        assert got == [] && taken + [] == taken;
        return true, n, None, taken, d;
      }
      taken := taken + got;
      ghost var c1, received, rest := pipe.content, dst.received, Rounds(src.script);
      var writeErr;
      ghost var todo;
      FlowHolds(before, dst.received, c1, p + taken, d, |p|);
      writeErr, connErr, todo := Push(dst, pipe, readN);
      SentOf(received, dst.received, c1, readN - todo, pipe.content);
      FlowOut(before, received, dst.received, c1, pipe.content, p + taken, d, readN - todo);
      PastFurther(n, readN, Flow(rest, dst.script));
      PastFailure(n, readN, todo, writeErr, dst.script);
      d := d + (readN - todo);
      if writeErr.Some? {
        return true, n, Some(WriteFailed(writeErr.value)), taken, d;
      }
      TellBoth(led, t0, readers, writers, n, readN);
      n := n + readN;
    }
  }

  /** `taken` is the front of what was offered, `left` the rest. */
  ghost predicate Taking(offered: seq<byte>, taken: seq<byte>, left: seq<byte>) { offered == taken + left }

  lemma TakenStart(offered: seq<byte>)
    ensures Taking(offered, [], offered)
  {
    assert [] + offered == offered;
  }

  lemma TakenFurther(offered: seq<byte>, taken: seq<byte>, before: seq<byte>, got: seq<byte>, after: seq<byte>)
    requires Taking(offered, taken, before)
    ensures taken <= offered
    ensures before == got + after ==> Taking(offered, taken + got, after) && taken + got <= offered
  {
    ConcatAssoc(taken, got, after);
  }

  lemma RunStart(source: seq<InEvent>, script: seq<OutEvent>)
    ensures AllPositive(Rounds(source)) && Run(source, script) == Past(0, Flow(Rounds(source), script))
  {
    RoundsMakeUpTheOffer(source);
  }

  /** One round, on both scripts. */
  lemma RoundStep(source: seq<InEvent>, script: seq<OutEvent>)
    ensures AllPositive(Rounds(source))
    ensures var (got, e, _, rest) := Next(source);
      if e.Some? || got == [] then Flow(Rounds(source), script) == Course(0, 0, 0, None, script)
      else
        && AllPositive(Rounds(rest))
        && var (left, refusal, script') := Outflow(script, |got|);
          Flow(Rounds(source), script) ==
            if refusal.Some? then Course(|got|, |got| - left, 0, refusal, script')
            else Past(|got|, Flow(Rounds(rest), script'))
  {
    RoundsMakeUpTheOffer(source);
    NextLaw(source);
    var (got, e, _, rest) := Next(source);
    if e.None? && got != [] {
      RoundsMakeUpTheOffer(rest);
      assert ([|got|] + Rounds(rest))[1..] == Rounds(rest);
    }
  }

  lemma PastEnd(n: nat, script: seq<OutEvent>)
    ensures Past(n, Course(0, 0, 0, None, script)) == Course(n, n, n, None, script)
  {
  }

  lemma PastFurther(n: nat, k: nat, c: Course)
    ensures Past(n, Past(k, c)) == Past(n + k, c)
  {
  }

  lemma PastFailure(n: nat, k: nat, left: nat, err: Option<Failure>, rest: seq<OutEvent>)
    requires left <= k
    ensures Past(n, Course(k, k - left, 0, err, rest)) == Course(n + k, n + (k - left), n, err, rest)
  {
  }

  lemma VerdictCases(ending: (Option<Failure>, bool))
    ensures ending.0.None? ==> Verdict(ending) == (true, None)
    ensures ending.0.Some? ==>
      (Verdict(ending) ==
        if ending.0.value == EINVAL || ending.0.value == ENOSYS
        then (false, if ending.1 then Some(FromConn(ending.0.value)) else None)
        else (true, Some(ReadFailed(ending.0.value))))
  {
  }

  /** What is in the pipe: what was in it at the start and has not left, and what was just read. */
  lemma FlowHolds(before: seq<byte>, now: seq<byte>, content: seq<byte>, q: seq<byte>, d: nat, p: nat)
    requires Flowing(before, now, content, q, d)
    ensures |content| == |q| - d
  {
  }

  lemma SentOf(before: seq<byte>, now: seq<byte>, all: seq<byte>, k: nat, left: seq<byte>)
    requires Sent(before, now, all, k, left)
    ensures k <= |all| && now == before + all[..k] && left == all[k..]
  {
  }

  // ---------------------------------------------------------------- leftovers

  /** A pipe delivers only what its own source offered, whatever the two ends do, exactly when it was
      empty at the start. */
  lemma CleanPipeExactlyWhen(content: seq<byte>)
    ensures (forall source, script :: Delivered(content, source, script) == Offered(source)[..Run(source, script).d]) <==>
      content == []
  {
    hide Run, Offered;
    if content == [] {
      forall source, script
        ensures Delivered(content, source, script) == Offered(source)[..Run(source, script).d]
      {
        var c := Run(source, script);
        assert [] + Offered(source)[..c.taken] == Offered(source)[..c.taken];
        assert Offered(source)[..c.taken][..c.d] == Offered(source)[..c.d];
      }
    } else {
      ForeignByte(content);
    }
  }

  lemma ForeignByte(content: seq<byte>)
    requires content != []
    ensures exists source, script :: Delivered(content, source, script) != Offered(source)[..Run(source, script).d]
  {
    hide Run, Offered;
    var other: byte := if content[0] == 0 then 1 else 0;
    var source := [Data([other])];
    OneByte(other);
    assert [other][..1] == [other];
    assert Delivered(content, source, []) == (content + [other])[..1] == [content[0]];
    assert Offered(source)[..Run(source, []).d] == [other];
  }

  /** A pipe is empty after a splice exactly when it was before and the destination does not fail. */
  lemma LeavesNothingExactlyWhen(content: seq<byte>, source: seq<InEvent>, script: seq<OutEvent>)
    ensures LeftBehind(content, source, script) == [] <==> content == [] && !DestinationFails(source, script)
    ensures |LeftBehind(content, source, script)| == |content| + Run(source, script).taken - Run(source, script).d
  {
    RunFailsExactlyWhen(source, script);
  }

  lemma OneByte(b: byte)
    ensures Offered([Data([b])]) == [b] && Ending([Data([b])]) == (None, false)
    ensures Rounds([Data([b])]) == [1]
    ensures Run([Data([b])], []) == Course(1, 1, 1, None, [])
    ensures forall e, c :: Run([Data([b])], [Gone(e, c)]) == Course(1, 0, 0, Some(e), [])
  {
    var source := [Data([b])];
    assert source == [Data([b])] + [];
    InCons(Data([b]), []);
    assert Next(source) == ([b], None, false, []);
    assert Rounds([]) == [] && Rounds(source) == [1] + [] == [1];
    assert [1][1..] == [];
    forall e, c
      ensures Run(source, [Gone(e, c)]) == Course(1, 0, 0, Some(e), [])
    {
      assert [Gone(e, c)][1..] == [];
      assert Outflow([Gone(e, c)], 1) == (1, Some(e), []);
    }
    assert Flow([], []) == Course(0, 0, 0, None, []);
  }

  /** Two splices over one pipe: what a failing first destination leaves behind comes before what the
      second source offers. */
  method OverOnePipe(src1: In, dst1: Out, src2: In, dst2: Out, pipe: Pipe, led: Ledger)
    returns (n: nat, err: Option<SpliceError>)
    requires src1 != src2 && dst1 != dst2
    modifies src1, dst1, src2, dst2, pipe, led
    ensures dst2.received == old(dst2.received)
      + Delivered(LeftBehind(old(pipe.content), old(src1.script), old(dst1.script)), old(src2.script), old(dst2.script))
    ensures n == Run(old(src2.script), old(dst2.script)).n
    ensures Run(old(src2.script), old(dst2.script)).err.None? && old(Ending(src2.script)).0.None? ==> err == None
  {
    hide Run, Delivered, LeftBehind;
    var handed;
    handed, n, err := SpliceThrough(src1, dst1, pipe, [], [], led);
    VerdictCases(Ending(src2.script));
    handed, n, err := SpliceThrough(src2, dst2, pipe, [], [], led);
  }

  lemma Leftover(a: byte, b: byte, e: Failure)
    ensures LeftBehind([], [Data([a])], [Gone(e, false)]) == [a]
    ensures Delivered([a], [Data([b])], []) == [a]
    ensures Run([Data([b])], []).n == 1 && Run([Data([b])], []).err == None
    ensures Ending([Data([b])]).0 == None && Offered([Data([b])]) == [b]
  {
    OneByte(a);
    OneByte(b);
    hide Run, Rounds, Offered, Ending;
    assert ([] + [a])[0..] == [a];
    assert ([a] + [b])[..1] == [a];
  }

  /** For example: the first destination is gone, and the second one receives the byte of the first
      source in place of the one that its own source offers, without an error. */
  method LeftoversAreDelivered(a: byte, b: byte, src2: In, dst2: Out) returns (n: nat, err: Option<SpliceError>)
    requires src2.script == [Data([b])] && dst2.script == []
    modifies src2, dst2
    ensures Offered(old(src2.script)) == [b]
    ensures dst2.received == old(dst2.received) + [a] && n == 1 && err == None
  {
    hide *;
    var led := new Ledger();
    var pipe := new Pipe();
    var src1 := new In([Data([a])]);
    var dst1 := new Out([Gone(Failure.Other(104), false)]);
    Leftover(a, b, Failure.Other(104));
    n, err := OverOnePipe(src1, dst1, src2, dst2, pipe, led);
  }

  // ---------------------------------------------------------------- the pool of pipes

  /** splicePipePool. It may lose pipes at any time; `data` in a pipe is never updated, so putPipe
      takes every pipe back. */
  class PipePool {
    var pipes: set<Pipe>

    ghost predicate Clean()
      reads this, pipes
    {
      forall p :: p in pipes ==> p.content == []
    }

    constructor ()
      ensures Clean() && pipes == {}
    {
      pipes := {};
    }

    /** getPipe: a pooled pipe, or a new one, or none if there is neither. */
    method GetPipe(kernelRefuses: bool) returns (pipe: Option<Pipe>)
      modifies this
      ensures pipe.None? ==> kernelRefuses
      ensures old(pipes) == {} && kernelRefuses ==> pipe.None?
      ensures pipe.Some? ==> pipe.value in old(pipes) || (fresh(pipe.value) && pipe.value.content == [])
      ensures pipes == if pipe.Some? then old(pipes) - {pipe.value} else old(pipes)
    {
      var hit: bool := *;
      if hit && pipes != {} {
        var p :| p in pipes;
        pipes := pipes - {p};
        return Some(p);
      }
      if kernelRefuses {
        return None;
      }
      var p := new Pipe();
      pipe := Some(p);
    }

    method PutPipe(pipe: Pipe)
      modifies this
      ensures pipes == old(pipes) + {pipe}
    {
      pipes := pipes + {pipe};
    }

    /** splice, over whatever pipes the pool has; `used` is the pipe, `content` what was in it. Without
        a pipe the call fails as handled, so nothing else is tried. */
    method Splice(src: In, dst: Out, readers: seq<CounterId>, writers: seq<CounterId>, led: Ledger, kernelRefuses: bool)
      returns (handed: bool, n: nat, err: Option<SpliceError>, ghost used: Option<Pipe>, ghost content: seq<byte>)
      modifies this, pipes, src, dst, led
      ensures used.None? <==> err == Some(NoPipe)
      ensures !kernelRefuses ==> used.Some?
      ensures old(pipes) == {} && kernelRefuses ==> used.None?
      ensures used.None? ==>
        && handed && n == 0 && dst.received == old(dst.received) && src.script == old(src.script)
        && pipes == old(pipes) && Clean() == old(Clean()) && led.totals == old(led.totals)
      ensures used.Some? ==>
        && (if used.value in old(pipes) then content == old(used.value.content) else content == [] && fresh(used.value))
        && pipes == old(pipes) + {used.value}
        && dst.received == old(dst.received) + Delivered(content, old(src.script), old(dst.script))
        && used.value.content == LeftBehind(content, old(src.script), old(dst.script))
        && (forall p :: p in old(pipes) && p != used.value ==> p.content == old(p.content))
      ensures used.Some? ==>
        var c := Run(old(src.script), old(dst.script));
        && n == c.n && ToldBoth(old(led.totals), led.totals, readers, writers, n)
        && (handed, err) == if c.err.Some? then (true, Some(WriteFailed(c.err.value))) else Verdict(old(Ending(src.script)))
      ensures used.Some? ==>
        (handed && err == None <==> !DestinationFails(old(src.script), old(dst.script)) && CleanEnd(old(src.script)))
      // a clean pool delivers only the source's own bytes, and stays clean unless the destination fails
      ensures old(Clean()) && used.Some? ==>
        && dst.received == old(dst.received) + old(Offered(src.script))[..Run(old(src.script), old(dst.script)).d]
        && (Clean() <==> !DestinationFails(old(src.script), old(dst.script)))
    {
      hide Run, Delivered, LeftBehind, DestinationFails, CleanEnd, Verdict, Offered, Ending;
      used, content := None, [];
      var got := GetPipe(kernelRefuses);
      if got.None? {
        return true, 0, Some(NoPipe), None, [];
      }
      var pipe := got.value;
      used, content := Some(pipe), pipe.content;
      LeavesNothingExactlyWhen(content, src.script, dst.script);
      CleanPipeExactlyWhen(content);
      VerdictIsNotNoPipe(Ending(src.script));
      ghost var source, script := src.script, dst.script;
      handed, n, err := SpliceThrough(src, dst, pipe, readers, writers, led);
      PutPipe(pipe);
      assert content == [] ==> Delivered(content, source, script) == Offered(source)[..Run(source, script).d];
    }

    /** With an empty pool and a kernel that makes no pipe, the copy is not left to anything else. */
    method NoPipeIsReportedAsHandled(src: In, dst: Out, led: Ledger)
      returns (handed: bool, n: nat, err: Option<SpliceError>)
      requires pipes == {}
      modifies this, src, dst, led
      ensures handed && n == 0 && err == Some(NoPipe)
      ensures dst.received == old(dst.received) && src.script == old(src.script)
    {
      ghost var used, content;
      handed, n, err, used, content := Splice(src, dst, [], [], led, true);
    }
  }

  lemma VerdictIsNotNoPipe(ending: (Option<Failure>, bool))
    ensures Verdict(ending).1 != Some(NoPipe)
  {
  }
}
