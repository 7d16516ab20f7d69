/** `Buffer`: read and write cursors over one array, with a reference count and a way back to the pools. */
module Buffers {
  import opened Prelude
  import opened Alloc
  import opened Peers

  const MAX_MANAGED := MAX_SIZE - 1
  const RETRIES: nat := 100

  // ---------------------------------------------------------------- writing out

  datatype Drained = Drained(left: nat, err: Option<Error>, rest: seq<WriteReply>)

  /** WriteTo with `len` bytes to go, after `retry` empty writes in a row: the bytes that stay, the
      error, and the script that is left. */
  function Drain(script: seq<WriteReply>, len: nat, retry: nat): (d: Drained)
    requires 0 < len && retry <= RETRIES
    ensures d.left <= len && (d.err.None? ==> d.left == 0)
    decreases |script|
  {
    var (k, e, rest) := Accept(script, len);
    if e.Some? then Drained(len - k, e, rest)
    else if k == len then Drained(0, None, rest)
    else if k == 0 then
      if retry + 1 > RETRIES then Drained(len, Some(NoProgress), rest) else Drain(rest, len, retry + 1)
    else Drain(rest, len - k, 0)
  }

  /** One pass of the loop of WriteTo. */
  lemma DrainStep(script: seq<WriteReply>, len: nat, retry: nat)
    requires 0 < len && retry <= RETRIES
    ensures var (k, e, rest) := Accept(script, len);
      && (e.Some? ==> Drain(script, len, retry) == Drained(len - k, e, rest))
      && (e.None? && k == len ==> Drain(script, len, retry) == Drained(0, None, rest))
      && (e.None? && k == 0 && retry < RETRIES ==> Drain(script, len, retry) == Drain(rest, len, retry + 1))
      && (e.None? && k == 0 && RETRIES <= retry ==> Drain(script, len, retry) == Drained(len, Some(NoProgress), rest))
      && (e.None? && 0 < k < len ==> Drain(script, len, retry) == Drain(rest, len - k, 0))
  {
  }

  /** So far a writer received the first `n` bytes of `all`; `kept` is the rest. */
  ghost predicate Sent(before: seq<byte>, now: seq<byte>, all: seq<byte>, n: nat, kept: seq<byte>) {
    n <= |all| && now == before + all[..n] && kept == all[n..]
  }

  lemma SentNothing(before: seq<byte>, all: seq<byte>)
    ensures Sent(before, before, all, 0, all)
  {
  }

  lemma SentMore(before: seq<byte>, mid: seq<byte>, now: seq<byte>, all: seq<byte>, n: nat,
                 kept: seq<byte>, k: nat, left: seq<byte>)
    requires Sent(before, mid, all, n, kept) && k <= |kept| && now == mid + kept[..k] && left == kept[k..]
    ensures Sent(before, now, all, n + k, left) && |kept| == |all| - n
  {
    TakeStep(all, n, k);
    ConcatAssoc(before, all[..n], all[n..][..k]);
  }

  lemma SentSoFar(before: seq<byte>, now: seq<byte>, all: seq<byte>, n: nat, kept: seq<byte>)
    requires Sent(before, now, all, n, kept)
    ensures n <= |all| && now == before + all[..n] && kept == all[n..]
  {
  }

  lemma RetriesAre()
    ensures RETRIES == 100
  {
  }

  /** What a writer takes in its first `j` replies. */
  function TakenBy(script: seq<WriteReply>, j: nat): nat
    requires j <= |script|
  {
    if j == 0 then 0 else TakenBy(script, j - 1) + script[j - 1].n
  }

  /** How many empty replies in a row come before reply `j`, after `retry` of them at the start. */
  function IdleBefore(script: seq<WriteReply>, j: nat, retry: nat): nat
    requires j <= |script|
  {
    if j == 0 then retry else if script[j - 1].n == 0 then IdleBefore(script, j - 1, retry) + 1 else 0
  }

  /** Reply `j` ends a WriteTo: with an error of the writer, or as one empty write too many. */
  predicate Stops(script: seq<WriteReply>, j: nat, retry: nat) {
    j < |script| && (script[j].err.Some? || (script[j].n == 0 && IdleBefore(script, j, retry) >= 100))
  }

  lemma {:induction false} TakenByTail(script: seq<WriteReply>, j: nat)
    requires 0 < j <= |script|
    ensures TakenBy(script, j) == script[0].n + TakenBy(script[1..], j - 1)
    decreases j
  {
    if j > 1 {
      TakenByTail(script, j - 1);
      assert script[1..][j - 2] == script[j - 1];
    }
  }

  lemma {:induction false} IdleTail(script: seq<WriteReply>, j: nat, retry: nat)
    requires 0 < j <= |script|
    ensures IdleBefore(script, j, retry) == IdleBefore(script[1..], j - 1, if script[0].n == 0 then retry + 1 else 0)
    decreases j
  {
    if j > 1 {
      IdleTail(script, j - 1, retry);
      assert script[1..][j - 2] == script[j - 1];
    }
  }

  lemma StopsTail(script: seq<WriteReply>, j: nat, retry: nat)
    requires script != []
    ensures Stops(script[1..], j, if script[0].n == 0 then retry + 1 else 0) <==> Stops(script, j + 1, retry)
    ensures j < |script| ==> TakenBy(script, j + 1) == script[0].n + TakenBy(script[1..], j)
  {
    if j + 1 < |script| {
      assert script[1..][j] == script[j + 1];
    }
    if j < |script| {
      IdleTail(script, j + 1, retry);
      TakenByTail(script, j + 1);
    }
  }

  /** A failing WriteTo failed at the first reply that ends it, reached with bytes to go; the error
      is the writer's own, or io.ErrNoProgress. */
  lemma {:induction false} DrainFailure(script: seq<WriteReply>, len: nat, retry: nat) returns (j: nat)
    requires 0 < len && retry <= RETRIES && Drain(script, len, retry).err.Some?
    ensures Stops(script, j, retry) && (forall i :: 0 <= i < j ==> !Stops(script, i, retry))
    ensures TakenBy(script, j) < len
    ensures Drain(script, len, retry).err == if script[j].err.Some? then script[j].err else Some(NoProgress)
    ensures len - Drain(script, len, retry).left == Min(TakenBy(script, j + 1), len)
    decreases |script|
  {
    var (k, e, rest) := Accept(script, len);
    if e.Some? || (k == 0 && retry + 1 > RETRIES) {
      j := 0;
      assert TakenBy(script, 1) == script[0].n;
    } else {
      var again := if k == 0 then retry + 1 else 0;
      var i := DrainFailure(rest, len - k, again);
      j := i + 1;
      assert rest == script[1..] && script != [] && k == script[0].n < len;
      assert Drain(script, len, retry) == Drain(rest, len - k, again);
      MinShift(TakenBy(rest, i + 1), len, k);
      assert i < |rest| && (i + 1 < |script| ==> script[i + 1] == rest[i]);
      hide *;
      forall h | 0 <= h < j
        ensures !Stops(script, h, retry)
      {
        if h > 0 { StopsTail(script, h - 1, retry); }
      }
      StopsTail(script, i, retry);
      StopsTail(script, i + 1, retry);
    }
  }

  lemma MinShift(a: nat, b: nat, k: nat)
    requires k <= b
    ensures Min(k + a, b) == k + Min(a, b - k)
  {
  }

  lemma {:induction false} DrainMeetsStop(script: seq<WriteReply>, len: nat, retry: nat, j: nat)
    requires 0 < len && retry <= RETRIES && Stops(script, j, retry) && TakenBy(script, j) < len
    ensures Drain(script, len, retry).err.Some?
    decreases |script|
  {
    var (k, e, rest) := Accept(script, len);
    if j > 0 && e.None? && !(k == 0 && retry + 1 > RETRIES) {
      StopsTail(script, j - 1, retry);
      DrainMeetsStop(rest, len - k, if k == 0 then retry + 1 else 0, j - 1);
    }
  }

  /** WriteTo fails exactly when the writer reports an error, or a hundred and one empty writes in a
      row, before it has taken everything. */
  lemma DrainFailsExactlyWhen(script: seq<WriteReply>, len: nat)
    requires 0 < len
    ensures Drain(script, len, 0).err.Some? <==>
      exists j :: 0 <= j < |script| && TakenBy(script, j) < len && Stops(script, j, 0)
  {
    if Drain(script, len, 0).err.Some? {
      var j := DrainFailure(script, len, 0);
    }
    if j :| 0 <= j < |script| && TakenBy(script, j) < len && Stops(script, j, 0) {
      DrainMeetsStop(script, len, 0, j);
    }
  }

  // ---------------------------------------------------------------- reading in

  datatype Filled = Filled(got: seq<byte>, err: Option<Error>, rest: seq<Reply>)

  /** ReadFrom with `room` bytes to go, after `retry` empty reads in a row. */
  function Intake(script: seq<Reply>, room: nat, retry: nat): (f: Filled)
    requires 0 < room && retry <= RETRIES
    ensures |f.got| <= room
    decreases Fuel(script), RETRIES - retry
  {
    ServeLaw(script, room);
    var (got, e, rest) := Serve(script, room);
    if e.Some? then Filled(got, if Is(e.value, EOF) then None else e, rest)
    else if |got| == room then Filled(got, None, rest)
    else if got == [] then
      if retry + 1 > RETRIES then Filled([], Some(NoProgress), rest) else Intake(rest, room, retry + 1)
    else
      var f := Intake(rest, room - |got|, 0);
      Filled(got + f.got, f.err, f.rest)
  }

  /** The same, after `taken` went in. */
  ghost function Ahead(taken: seq<byte>, f: Filled): Filled { f.(got := taken + f.got) }

  lemma AheadStart(f: Filled)
    ensures Ahead([], f) == f
  {
    assert [] + f.got == f.got;
  }

  lemma IntakeCases(script: seq<Reply>, room: nat, retry: nat)
    requires 0 < room && retry <= RETRIES
    ensures var (got, e, rest) := Serve(script, room);
      var f := Intake(script, room, retry);
      && |got| <= room
      && (e.Some? ==> f == Filled(got, if Is(e.value, EOF) then None else e, rest))
      && (e.None? && |got| == room ==> f == Filled(got, None, rest))
      && (e.None? && got == [] && retry < RETRIES ==> f == Intake(rest, room, retry + 1))
      && (e.None? && got == [] && RETRIES <= retry ==> f == Filled([], Some(NoProgress), rest))
      && (e.None? && got != [] && |got| < room ==> f == Ahead(got, Intake(rest, room - |got|, 0)))
  {
    ServeLaw(script, room);
  }

  lemma AheadTwice(a: seq<byte>, b: seq<byte>, f: Filled)
    ensures Ahead(a, Ahead(b, f)) == Ahead(a + b, f)
    ensures f.got == b ==> Ahead(a, f).got == a + b
    ensures Ahead(a, f).err == f.err && Ahead(a, f).rest == f.rest && Ahead(a, f).got == a + f.got
  {
    ConcatAssoc(a, b, f.got);
  }

  /** One pass of the loop of ReadFrom. */
  lemma IntakeStep(script: seq<Reply>, room: nat, retry: nat, taken: seq<byte>)
    requires 0 < room && retry <= RETRIES
    ensures var (got, e, rest) := Serve(script, room);
      var f := Ahead(taken, Intake(script, room, retry));
      && |got| <= room && (got == [] ==> taken + got == taken)
      && (e.Some? ==> f == Filled(taken + got, if Is(e.value, EOF) then None else e, rest))
      && (e.None? && |got| == room ==> f == Filled(taken + got, None, rest))
      && (e.None? && got == [] && retry < RETRIES ==> f == Ahead(taken + got, Intake(rest, room, retry + 1)))
      && (e.None? && got == [] && RETRIES <= retry ==> f == Filled(taken + got, Some(NoProgress), rest))
      && (e.None? && got != [] && |got| < room ==> f == Ahead(taken + got, Intake(rest, room - |got|, 0)))
  {
    hide *;
    var (got, e, rest) := Serve(script, room);
    IntakeCases(script, room, retry);
    AheadTwice(taken, got, Intake(script, room, retry));
    if e.None? && got != [] && |got| < room {
      AheadTwice(taken, got, Intake(rest, room - |got|, 0));
    }
  }

  /** How many empty replies in a row come before reply `j`, after `retry` of them at the start. */
  function EmptyBefore(script: seq<Reply>, j: nat, retry: nat): nat
    requires j <= |script|
  {
    if j == 0 then retry
    else if script[j - 1] == Reply([], None) then EmptyBefore(script, j - 1, retry) + 1
    else 0
  }

  /** Reply `j` is one empty read too many. */
  predicate Stalls(script: seq<Reply>, j: nat, retry: nat) {
    j < |script| && script[j] == Reply([], None) && EmptyBefore(script, j, retry) >= 100
  }

  /** What a source hands out in its first `j` replies. */
  function GivenBy(script: seq<Reply>, j: nat): nat
    requires j <= |script|
  {
    if j == 0 then 0 else GivenBy(script, j - 1) + |script[j - 1].data|
  }

  /** That read is reached: no error comes before it, and the room is not full. */
  predicate StallsIn(script: seq<Reply>, room: nat, j: nat, retry: nat) {
    Stalls(script, j, retry) && GivenBy(script, j) < room && forall i :: 0 <= i < j ==> script[i].err.None?
  }

  lemma {:induction false} GivenTail(script: seq<Reply>, j: nat)
    requires 0 < j <= |script|
    ensures GivenBy(script, j) == |script[0].data| + GivenBy(script[1..], j - 1)
    decreases j
  {
    if j > 1 {
      GivenTail(script, j - 1);
      assert script[1..][j - 2] == script[j - 1];
    }
  }

  lemma {:induction false} EmptyTail(script: seq<Reply>, j: nat, retry: nat)
    requires 0 < j <= |script|
    ensures EmptyBefore(script, j, retry) ==
      EmptyBefore(script[1..], j - 1, if script[0] == Reply([], None) then retry + 1 else 0)
    decreases j
  {
    if j > 1 {
      EmptyTail(script, j - 1, retry);
      assert script[1..][j - 2] == script[j - 1];
    }
  }

  /** ReadFrom stops for one of three reasons. The source is at its end and everything went in; or
      the room is full; or there were a hundred and one empty reads in a row. In the last two cases
      nothing that was read is lost. */
  lemma {:induction false} IntakeLaw(script: seq<Reply>, room: nat, retry: nat)
    requires 0 < room && retry <= RETRIES
    ensures var f := Intake(script, room, retry);
      || (f.got == Stream(script) && f.err == if Innermost(End(script)) == EOF then None else Some(End(script)))
      || (Stream(script) == f.got + Stream(f.rest) && End(f.rest) == End(script)
          && ((f.err == None && |f.got| == room)
              || (f.err == Some(NoProgress) && exists j :: 0 <= j < |script| && StallsIn(script, room, j, retry))))
    decreases Fuel(script), RETRIES - retry
  {
    hide *;
    ServeLaw(script, room);
    IntakeCases(script, room, retry);
    IsInnermost(End(script), EOF);
    RetriesAre();
    var (got, e, rest) := Serve(script, room);
    if e.None? && |got| < room {
      WholeReply(script, room);
      if got == [] && RETRIES <= retry {
        StallsHere(script, room, retry);
        assert [] + Stream(rest) == Stream(rest);
      } else {
        var again := if got == [] then retry + 1 else 0;
        var f := Intake(rest, room - |got|, again);
        IntakeLaw(rest, room - |got|, again);
        AheadTwice(got, [], f);
        ConcatAssoc(got, f.got, Stream(f.rest));
        assert got == [] ==> got + f.got == f.got;
        var left := room - |got|;
        if j :| 0 <= j < |rest| && StallsIn(rest, left, j, again) {
          StallsLater(script, room, j, retry);
        }
      }
    }
  }

  /** A read that leaves room got the whole next reply. */
  lemma WholeReply(script: seq<Reply>, room: nat)
    requires Serve(script, room).1.None? && |Serve(script, room).0| < room
    ensures script != [] && script[0] == Reply(Serve(script, room).0, None) && Serve(script, room).2 == script[1..]
  {
  }

  lemma StallsHere(script: seq<Reply>, room: nat, retry: nat)
    requires script != [] && script[0] == Reply([], None) && 100 <= retry && 0 < room
    ensures StallsIn(script, room, 0, retry)
  {
  }

  lemma StallsLater(script: seq<Reply>, room: nat, j: nat, retry: nat)
    requires script != [] && script[0].err.None? && |script[0].data| <= room
    requires StallsIn(script[1..], room - |script[0].data|, j, if script[0] == Reply([], None) then retry + 1 else 0)
    ensures j + 1 < |script| && StallsIn(script, room, j + 1, retry)
  {
    EmptyTail(script, j + 1, retry);
    GivenTail(script, j + 1);
    assert forall i :: 0 < i < |script| ==> script[i] == script[1..][i - 1];
  }

  /** A stalling source is given up on. */
  lemma {:induction false} IntakeMeetsStall(script: seq<Reply>, room: nat, retry: nat, j: nat)
    requires 0 < room && retry <= RETRIES && StallsIn(script, room, j, retry)
    ensures Intake(script, room, retry).err == Some(NoProgress)
    decreases j
  {
    IntakeCases(script, room, retry);
    if j > 0 {
      GivenTail(script, j);
      assert script[0].err.None? && |script[0].data| <= room - (GivenBy(script, j) - |script[0].data|);
      assert Serve(script, room) == (script[0].data, None, script[1..]);
      if |script[0].data| > 0 || retry < RETRIES {
        EmptyTail(script, j, retry);
        assert forall i :: 0 < i < |script| ==> script[i] == script[1..][i - 1];
        IntakeMeetsStall(script[1..], room - |script[0].data|, if script[0].data == [] then retry + 1 else 0, j - 1);
      }
    }
  }

  /** ReadFrom reports io.ErrNoProgress exactly if it meets a hundred and one empty reads in a row before an
      error and with room left, or that is how the source itself ends. */
  lemma IntakeStallsExactlyWhen(script: seq<Reply>, room: nat)
    requires 0 < room
    ensures (exists j :: 0 <= j < |script| && StallsIn(script, room, j, 0)) ==> Intake(script, room, 0).err == Some(NoProgress)
    ensures Intake(script, room, 0).err == Some(NoProgress) ==>
      End(script) == NoProgress || exists j :: 0 <= j < |script| && StallsIn(script, room, j, 0)
  {
    IntakeLaw(script, room, 0);
    if j :| 0 <= j < |script| && StallsIn(script, room, j, 0) {
      IntakeMeetsStall(script, room, 0, j);
    }
  }

  class Buffer {
    /** The array behind `data`; it never changes, `live` says whether `data` is non-nil. */
    const store: array<byte>
    /** len(data), which is also what Cap reports. */
    const len: nat
    const managed: bool
    var live: bool
    var size: nat
    var r: nat
    var w: nat
    var ref: int

    ghost predicate Valid()
      reads this
    {
      && r <= w <= size <= len <= store.Length
      && (managed ==> PutClass(store.Length).Stored?)
    }

    /** Valid and not freed: what every operation on the bytes needs. */
    ghost predicate Usable()
      reads this
    {
      Valid() && (live || size == 0)
    }

    /** The bytes between the cursors. */
    ghost function Contents(): seq<byte>
      requires Valid()
      reads this, store
    {
      store[r..w]
    }

    /** A buffer for `size` bytes: nothing, a plain array, or one from the pools. */
    constructor NewSize(size: nat, alloc: Allocator)
      requires alloc.Valid()
      modifies alloc
      ensures alloc.Valid() && Usable() && Contents() == [] && w == 0 && ref == 0
      ensures this.size == size == len
      ensures managed <==> 0 < size <= MAX_MANAGED
      ensures managed ==> store.Length == Pow2(PoolIndex(size) + 6)
      ensures live <==> 0 < size
      ensures fresh(store) || store in old(alloc.Pooled())
      ensures alloc.Pooled() == old(alloc.Pooled()) - {store}
    {
      var data: array<byte>;
      if size == 0 || MAX_MANAGED < size {
        data := new byte[size];
        assert data !in alloc.Pooled();
      } else {
        var a := alloc.Get(size);
        data := a;
        PutUndoesGet(size);
      }
      store, len, managed := data, size, 0 < size <= MAX_MANAGED;
      live, this.size, r, w, ref := 0 < size, size, 0, 0, 0;
    }

    /** A buffer over bytes that are already there. */
    constructor As(bs: array<byte>)
      ensures Valid() && live && Contents() == bs[..] && store == bs && !managed && ref == 0
      ensures size == len == bs.Length
    {
      store, len, managed := bs, bs.Length, false;
      live, size, r, w, ref := true, bs.Length, 0, bs.Length, 0;
    }

    method Reset()
      requires Valid()
      modifies this`r, this`w
      ensures Valid() && r == w == 0
    {
      r, w := 0, 0;
    }

    method IncRef()
      modifies this`ref
      ensures ref == old(ref) + 1
    {
      ref := ref + 1;
    }

    method DecRef()
      modifies this`ref
      ensures ref == old(ref) - 1
    {
      ref := ref - 1;
    }

    /** Gives the array back once, and only when nobody holds a reference. The array of a live managed
        buffer is in no pool; PoolRuns shows that this is so in every run. */
    method Free(alloc: Allocator)
      requires Valid() && alloc.Valid() && (live && ref <= 0 && managed ==> store !in alloc.Pooled())
      modifies this`live, alloc
      ensures alloc.Valid()
      ensures live == (old(live) && 0 < ref)
      ensures alloc.Pooled() ==
        old(alloc.Pooled()) + if old(live) && ref <= 0 && managed && 0 < len then {store} else {}
    {
      if !live || 0 < ref {
        return;
      }
      if managed && len != 0 {
        var outcome := alloc.Put(store);
      }
      live := false;
    }

    /** Copies `bs` to the write cursor. */
    method Fill(bs: seq<byte>)
      requires Usable() && w + |bs| <= size
      modifies this`w, store
      ensures Usable() && Contents() == old(Contents()) + bs && w == old(w) + |bs|
    {
      forall i | 0 <= i < |bs| {
        store[w + i] := bs[i];
      }
      w := w + |bs|;
    }

    method Read(max: nat) returns (bs: seq<byte>, err: Option<Error>)
      requires Usable()
      modifies this`r
      ensures Usable()
      ensures old(Contents()) == [] ==> bs == [] && err == Some(EOF)
      ensures old(Contents()) != [] ==> |bs| == Min(max, |old(Contents())|) && err == None
      ensures old(Contents()) == bs + Contents()
    {
      if r == w {
        return [], Some(EOF);
      }
      var n := Min(max, w - r);
      bs := store[r..r + n];
      r := r + n;
      err := None;
    }

    /** How a cached reader takes bytes: when the last one is gone it drops its reference and frees
        the buffer. */
    method ReadAndRelease(max: nat, alloc: Allocator) returns (bs: seq<byte>)
      requires Usable() && Contents() != [] && alloc.Valid() && (managed ==> store !in alloc.Pooled())
      modifies this`r, this`ref, this`live, alloc
      ensures Valid() && alloc.Valid()
      ensures |bs| == Min(max, |old(Contents())|) && old(Contents()) == bs + Contents()
      ensures Contents() != [] ==> live && ref == old(ref) && alloc.Pooled() == old(alloc.Pooled())
      ensures Contents() == [] ==>
        && ref == old(ref) - 1 && live == (0 < ref)
        && alloc.Pooled() == old(alloc.Pooled()) + if ref <= 0 && managed then {store} else {}
    {
      var e;
      bs, e := Read(max);
      if r == w {
        DecRef();
        Free(alloc);
      }
    }

    method ReadByte() returns (b: byte, err: Option<Error>)
      requires Usable()
      modifies this`r
      ensures Usable()
      ensures err.None? <==> old(Contents()) != []
      ensures err.None? ==> old(Contents()) == [b] + Contents()
      ensures err.Some? ==> err.value == EOF && b == 0 && Contents() == []
    {
      if r == w {
        return 0, Some(EOF);
      }
      r := r + 1;
      b, err := store[r - 1], None;
    }

    method Write(bs: seq<byte>) returns (n: nat, err: Option<Error>)
      requires Usable()
      modifies this`w, store
      ensures Usable()
      ensures n == Min(old(size - w), |bs|) && Contents() == old(Contents()) + bs[..n] && w == old(w) + n
      ensures err == if old(w) == size then Some(ShortBuffer) else None
    {
      if w == size {
        return 0, Some(ShortBuffer);
      }
      if |bs| == 0 {
        return 0, None;
      }
      n := Min(size - w, |bs|);
      Fill(bs[..n]);
      err := None;
    }

    /** All or nothing. */
    method WriteString(s: seq<byte>) returns (n: nat, err: Option<Error>)
      requires Usable()
      modifies this`w, store
      ensures Usable()
      ensures err.None? <==> s == [] || old(w) + |s| <= size
      ensures err.None? ==> n == |s| && Contents() == old(Contents()) + s && w == old(w) + n
      ensures err.Some? ==> err.value == ShortBuffer && n == 0 && Contents() == old(Contents()) && w == old(w)
    {
      if |s| == 0 {
        return 0, None;
      }
      if w + |s| > size {
        return 0, Some(ShortBuffer);
      }
      Fill(s);
      n, err := |s|, None;
    }

    method WriteByte(b: byte) returns (err: Option<Error>)
      requires Usable()
      modifies this`w, store
      ensures Usable()
      ensures err == if old(w) == size then Some(ShortBuffer) else None
      ensures Contents() == old(Contents()) + if err.None? then [b] else []
      ensures w == old(w) + if err.None? then 1 else 0
    {
      if w == size {
        return Some(ShortBuffer);
      }
      Fill([b]);
      err := None;
    }

    method Discard(n: int) returns (nn: nat, err: Option<Error>)
      requires Usable()
      modifies this`r
      ensures Usable()
      ensures err == if n < 0 then Some(NegativeCount) else if old(Contents()) == [] then Some(EOF) else None
      ensures nn == if err.Some? then 0 else Min(n, |old(Contents())|)
      ensures Contents() == old(Contents())[nn..]
    {
      if n < 0 {
        return 0, Some(NegativeCount);
      }
      if r == w {
        return 0, Some(EOF);
      }
      var end := r + n;
      if end > w {
        end := w;
      }
      nn := end - r;
      r := end;
      err := None;
    }

    method Peek(n: int) returns (bs: seq<byte>, err: Option<Error>)
      requires Usable()
      ensures err ==
        if n < 0 then Some(NegativeCount)
        else if Contents() == [] then Some(EOF)
        else if |Contents()| < n then Some(Overflow)
        else None
      ensures err.None? ==> bs == Contents()[..n]
    {
      if n < 0 {
        return [], Some(NegativeCount);
      }
      if r == w {
        return [], Some(EOF);
      }
      if r + n > w {
        return [], Some(Overflow);
      }
      return store[r..r + n], None;
    }

    method ReadFromOnce(src: Source) returns (n: nat, err: Option<Error>)
      requires Usable()
      modifies this`w, store, src
      ensures Usable() && n == w - old(w)
      ensures old(w) == size ==>
        err == Some(Error.ShortWrite) && src.script == old(src.script) && Contents() == old(Contents())
      ensures old(w) < size ==>
        var (got, e, rest) := Serve(old(src.script), old(size - w));
        Contents() == old(Contents()) + got && n == |got| && err == e && src.script == rest
    {
      if w == size {
        return 0, Some(Error.ShortWrite);
      }
      var got, e := src.Read(size - w);
      Fill(got);
      n, err := |got|, e;
    }

    /** One write of everything between the cursors. */
    method WriteToOnce(sink: Sink) returns (n: nat, err: Option<Error>)
      requires Usable()
      modifies this`r, sink
      ensures Usable() && n <= |old(Contents())| && r == old(r) + n && Contents() == old(Contents())[n..]
      ensures old(Contents()) == [] ==> err == Some(EOF) && sink.received == old(sink.received) && sink.calls == old(sink.calls)
      ensures sink.received == old(sink.received) + old(Contents())[..n]
      ensures sink.calls <= old(sink.calls) + 1
      ensures sink.handshake == old(sink.handshake)
      ensures old(Contents()) != [] ==> (n, err, sink.script) == Accept(old(sink.script), |old(Contents())|)
      ensures old(Contents()) == [] ==> sink.script == old(sink.script)
    {
      if r == w {
        return 0, Some(EOF);
      }
      n, err := sink.Write(store[r..w]);
      r := r + n;
    }

    /** Writes the contents out, retrying empty writes up to a hundred times in a row. */
    method WriteTo(sink: Sink) returns (n: nat, err: Option<Error>)
      requires Usable()
      modifies this`r, sink
      ensures Usable() && n <= |old(Contents())| && r == old(r) + n
      ensures sink.received == old(sink.received) + old(Contents())[..n]
      ensures Contents() == old(Contents())[n..]
      ensures old(Contents()) == [] ==> err == Some(EOF) && sink.script == old(sink.script)
      ensures old(Contents()) != [] ==>
        Drained(|old(Contents())| - n, err, sink.script) == Drain(old(sink.script), |old(Contents())|, 0)
      ensures old(Contents()) != [] && err.None? ==> n == |old(Contents())|
      ensures sink.calls <= old(sink.calls) + 101 * |old(Contents())|
      ensures sink.handshake == old(sink.handshake)
    {
      if r == w {
        assert sink.received + [] == sink.received;
        return 0, Some(EOF);
      }
      ghost var all, received := Contents(), sink.received;
      hide *;
      n, err := WriteAll(sink, all, received);
      SentSoFar(received, sink.received, all, n, Contents());
    }

    /** The loop of WriteTo. */
    method WriteAll(sink: Sink, ghost all: seq<byte>, ghost received: seq<byte>) returns (n: nat, err: Option<Error>)
      requires Usable() && Contents() == all && r < w && |all| == w - r && sink.received == received
      modifies this`r, sink
      ensures Usable() && n <= |all| && r == old(r) + n
      ensures Sent(received, sink.received, all, n, Contents())
      ensures Drained(|all| - n, err, sink.script) == Drain(old(sink.script), |all|, 0)
      ensures err.None? ==> n == |all|
      ensures sink.calls <= old(sink.calls) + 101 * |all|
      ensures sink.handshake == old(sink.handshake)
    {
      hide *;
      RetriesAre();
      Span();
      SentNothing(received, all);
      n, err := 0, None;
      var retry := 0;
      while true
        invariant Valid() && Usable() && 0 <= n < |all| && r == old(r) + n && 0 <= retry <= RETRIES
        invariant err == None && w == old(w) && |all| == w - old(r)
        invariant Sent(received, sink.received, all, n, Contents())
        invariant sink.calls <= old(sink.calls) + 101 * n + retry
        invariant sink.handshake == old(sink.handshake)
        invariant Drain(old(sink.script), |all|, 0) == Drain(sink.script, |all| - n, retry)
        decreases |all| - n, RETRIES - retry
      {
        ghost var script, mid, kept := sink.script, sink.received, Contents();
        Span();
        var nn, e := WriteToOnce(sink);
        DrainStep(script, |all| - n, retry);
        Span();
        SentMore(received, mid, sink.received, all, n, kept, nn, Contents());
        n, err := n + nn, e;
        if err.Some? {
          break;
        }
        if r == w {
          return;
        }
        if nn == 0 {
          retry := retry + 1;
          if retry > RETRIES {
            err := Some(NoProgress);
            break;
          }
          continue;
        }
        retry := 0;
      }
    }

    lemma Span()
      requires Usable()
      ensures Valid() && |Contents()| == w - r
    {
    }

    /** Reads until full, the end of the stream or an error, with the same limit on empty reads. */
    method ReadFrom(src: Source) returns (n: nat, err: Option<Error>)
      requires Usable()
      modifies this`w, store, src
      ensures Usable() && n == w - old(w)
      ensures old(w) == size ==> err == Some(ShortBuffer) && n == 0 && src.script == old(src.script)
      ensures old(w) < size ==>
        var f := Intake(old(src.script), old(size - w), 0);
        Contents() == old(Contents()) + f.got && err == f.err && src.script == f.rest
      ensures src.calls <= old(src.calls) + 101 * old(size - w)
    {
      hide *;
      if w == size {
        return 0, Some(ShortBuffer);
      }
      Span();
      n, err := ReadAll(src, Contents());
    }

    /** The loop of ReadFrom. */
    method ReadAll(src: Source, ghost start: seq<byte>) returns (n: nat, err: Option<Error>)
      requires Usable() && w < size && Contents() == start
      modifies this`w, store, src
      ensures Usable() && Valid() && n == w - old(w)
      ensures var f := Intake(old(src.script), old(size - w), 0);
        Contents() == start + f.got && err == f.err && src.script == f.rest
      ensures src.calls <= old(src.calls) + 101 * old(size - w)
    {
      hide *;
      RetriesAre();
      Span();
      ghost var taken: seq<byte>, f := [], Intake(src.script, size - w, 0);
      n, err := 0, None;
      var retry := 0;
      AheadStart(f);
      assert start + [] == start;
      while true
        invariant Valid() && Usable() && w < size && n == w - old(w) == |taken| && 0 <= retry <= RETRIES && err == None
        invariant Contents() == start + taken
        invariant f == Ahead(taken, Intake(src.script, size - w, retry))
        invariant src.calls <= old(src.calls) + 101 * n + retry
        decreases size - w, RETRIES - retry
      {
        ghost var before, script, room := taken, src.script, size - w;
        var got, e := src.Read(size - w);
        Fill(got);
        Span();
        IntakeStep(script, room, retry, before);
        ConcatAssoc(start, before, got);
        taken := before + got;
        n, err := n + |got|, e;
        if err.Some? {
          if Is(err.value, EOF) {
            err := None;
          }
          break;
        }
        if w == size {
          break;
        }
        if |got| == 0 {
          retry := retry + 1;
          if retry > RETRIES {
            err := Some(NoProgress);
            break;
          }
          continue;
        }
        retry := 0;
      }
    }
  }
}
