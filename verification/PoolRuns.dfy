/**
 Who owns an array, over whole runs.

 Buffers come from shared pools and go back to them, may be freed again and again, and may be held
 by a cached reader meanwhile. `Slot` is a buffer with bytes of its own: no pools, no arrays, no
 reference counts. Any run of real buffers behaves like the same run of slots.
 */
module PoolRuns {
  import opened Prelude
  import opened Alloc
  import opened Peers
  import opened Buffers

  /** `held`: a cached reader has the buffer. `w` counts the bytes ever written. */
  datatype Slot = Slot(size: nat, live: bool, held: bool, w: nat, bytes: seq<byte>)

  datatype Op =
    | New(size: nat)
    | Write(i: nat, bs: seq<byte>)
    | Read(i: nat, max: nat)
    | Free(i: nat)
    | Cache(i: nat)                 // NewCacheReader
    | ReadCached(i: nat, max: nat)  // Read on that reader, as far as it concerns the buffer
    | Pick(i: nat)                  // ReadCache on that reader

  /** An operation on one slot: the slot afterwards and the bytes that come out. A freed buffer is
      not written to, read or cached. */
  function SlotStep(s: Slot, op: Op): (Slot, seq<byte>)
    requires s.w <= s.size
  {
    match op
    case New(_) => (s, [])
    case Write(_, bs) =>
      if !s.live then (s, [])
      else
        var n := Min(s.size - s.w, |bs|);
        (s.(w := s.w + n, bytes := s.bytes + bs[..n]), [])
    case Read(_, max) =>
      if !s.live then (s, [])
      else
        var n := Min(max, |s.bytes|);
        (s.(bytes := s.bytes[n..]), s.bytes[..n])
    case Free(_) =>
      if !s.live || s.held then (s, []) else (s.(live := false, bytes := []), [])
    case Cache(_) =>
      if !s.live || s.held || s.bytes == [] then (s, []) else (s.(held := true), [])
    case ReadCached(_, max) =>
      if !s.held || !s.live || s.bytes == [] then (s, [])
      else
        var n := Min(max, |s.bytes|);
        (s.(bytes := s.bytes[n..], live := n < |s.bytes|), s.bytes[..n])
    case Pick(_) =>
      (s.(held := false), [])
  }

  predicate Sized(slots: seq<Slot>) {
    forall i :: 0 <= i < |slots| ==> slots[i].w <= slots[i].size
  }

  /** Only the slot an operation names changes. */
  function Step(slots: seq<Slot>, op: Op): (r: (seq<Slot>, seq<byte>))
    requires Sized(slots)
    ensures Sized(r.0)
  {
    if op.New? then (slots + [Slot(op.size, 0 < op.size, false, 0, [])], [])
    else if op.i < |slots| then
      var (s, out) := SlotStep(slots[op.i], op);
      (slots[op.i := s], out)
    else (slots, [])
  }

  /** Everything that comes out of a run. */
  function Run(slots: seq<Slot>, ops: seq<Op>): (r: (seq<Slot>, seq<seq<byte>>))
    requires Sized(slots)
    ensures Sized(r.0)
  {
    if ops == [] then (slots, [])
    else
      var (before, outs) := Run(slots, ops[..|ops| - 1]);
      var (after, out) := Step(before, ops[|ops| - 1]);
      (after, outs + [out])
  }

  ghost predicate Cursors(b: Buffer, s: Slot)
    reads b
  {
    && b.Valid() && b.size == s.size && b.w == s.w
    && (s.live ==> b.ref == if s.held then 1 else 0)
    && (s.held && !s.live ==> b.r == b.w)
  }

  ghost predicate Holds(b: Buffer, bytes: seq<byte>)
    reads b, b.store
  {
    b.Valid() && b.Contents() == bytes
  }

  /** A real buffer is as its slot says. */
  ghost predicate Fits(b: Buffer, s: Slot)
    reads b, b.store
  {
    b.live == s.live && Cursors(b, s) && (s.live ==> Holds(b, s.bytes))
  }

  lemma FitsFresh(b: Buffer, s: Slot)
    requires b.Usable() && b.Contents() == [] && b.w == 0 && b.ref == 0 && b.size == s.size && b.live == s.live
    requires s.w == 0 && s.bytes == [] && !s.held
    ensures Fits(b, s)
  {
  }

  method ApplyWrite(b: Buffer, ghost s: Slot, bs: seq<byte>)
    requires Fits(b, s) && s.live && s.w <= s.size
    modifies b`w, b.store
    ensures Fits(b, SlotStep(s, Write(0, bs)).0)
  {
    var n, err := b.Write(bs);
  }

  method ApplyRead(b: Buffer, ghost s: Slot, max: nat) returns (out: seq<byte>)
    requires Fits(b, s) && s.live && s.w <= s.size
    modifies b`r
    ensures Fits(b, SlotStep(s, Read(0, max)).0) && out == SlotStep(s, Read(0, max)).1
  {
    var err;
    out, err := b.Read(max);
    assert out == s.bytes[..|out|] && b.Contents() == s.bytes[|out|..];
  }

  method ApplyReadCached(b: Buffer, ghost s: Slot, max: nat, alloc: Allocator) returns (out: seq<byte>)
    requires Fits(b, s) && s.live && s.held && s.bytes != [] && s.w <= s.size
    requires alloc.Valid() && b.store !in alloc.Pooled()
    modifies b`r, b`ref, b`live, alloc
    ensures Fits(b, SlotStep(s, ReadCached(0, max)).0) && out == SlotStep(s, ReadCached(0, max)).1
    ensures alloc.Valid()
    ensures alloc.Pooled() == old(alloc.Pooled()) || (!b.live && alloc.Pooled() == old(alloc.Pooled()) + {b.store})
  {
    out := b.ReadAndRelease(max, alloc);
    assert out == s.bytes[..|out|] && b.Contents() == s.bytes[|out|..];
  }

  method ApplyFree(b: Buffer, ghost s: Slot, alloc: Allocator)
    requires Fits(b, s) && s.w <= s.size && alloc.Valid() && (b.live ==> b.store !in alloc.Pooled())
    modifies b`live, alloc
    ensures Fits(b, SlotStep(s, Free(0)).0) && alloc.Valid() && (b.live ==> old(b.live))
    ensures alloc.Pooled() == old(alloc.Pooled())
      || (old(b.live) && !b.live && alloc.Pooled() == old(alloc.Pooled()) + {b.store})
  {
    b.Free(alloc);
  }

  /** The slot does not say which slot it is. */
  lemma SameForAnyIndex(s: Slot, op: Op)
    requires s.w <= s.size
    ensures op.Write? ==> SlotStep(s, op) == SlotStep(s, Write(0, op.bs))
    ensures op.Read? ==> SlotStep(s, op) == SlotStep(s, Read(0, op.max))
    ensures op.ReadCached? ==> SlotStep(s, op) == SlotStep(s, ReadCached(0, op.max))
    ensures op.Free? ==> SlotStep(s, op) == SlotStep(s, Free(0)) && SlotStep(s, op).1 == []
    ensures op.Write? ==> SlotStep(s, op).1 == [] && (!s.live ==> SlotStep(s, op).0 == s)
    ensures op.Read? && !s.live ==> SlotStep(s, op) == (s, [])
    ensures op.ReadCached? && !(s.held && s.live && s.bytes != []) ==> SlotStep(s, op) == (s, [])
    ensures op.Write? || op.Read? || op.Free? || op.ReadCached? ==> SlotStep(s, op).0.held == s.held
    ensures op.Cache? || op.Pick? ==> SlotStep(s, op).1 == []
  {
  }

  /** An operation on one real buffer does what it does to the slot; the array goes to a pool only
      when the buffer lets go of it. */
  method Apply(b: Buffer, ghost s: Slot, held: bool, op: Op, alloc: Allocator) returns (out: seq<byte>, h: bool)
    requires Fits(b, s) && s.w <= s.size && held == s.held && !op.New?
    requires alloc.Valid() && (b.live ==> b.store !in alloc.Pooled())
    modifies b, b.store, alloc
    ensures Fits(b, SlotStep(s, op).0) && h == SlotStep(s, op).0.held && out == SlotStep(s, op).1
    ensures alloc.Valid() && (b.live ==> old(b.live))
    ensures !old(b.live) ==> unchanged(b.store)
    ensures alloc.Pooled() == old(alloc.Pooled())
      || (old(b.live) && !b.live && alloc.Pooled() == old(alloc.Pooled()) + {b.store})
  {
    SameForAnyIndex(s, op);
    out, h := [], held;
    if op.Write? {
      if b.live {
        ApplyWrite(b, s, op.bs);
      }
    } else if op.Read? {
      if b.live {
        out := ApplyRead(b, s, op.max);
      }
    } else if op.Free? {
      ApplyFree(b, s, alloc);
    } else if op.ReadCached? {
      if held && b.live && b.r != b.w {
        out := ApplyReadCached(b, s, op.max, alloc);
      }
    } else if op.Cache? {
      if b.live && !held && b.r != b.w {
        b.IncRef();
        h := true;
      }
    } else if held {
      b.DecRef();
      h := false;
    }
  }

  class World {
    const alloc: Allocator
    var bufs: seq<Buffer>
    var held: seq<bool>
    ghost var slots: seq<Slot>

    ghost predicate Matches()
      reads this, bufs, (set b | b in bufs :: b.store)
    {
      && |bufs| == |slots| == |held|
      && forall i :: 0 <= i < |bufs| ==> Fits(bufs[i], slots[i]) && held[i] == slots[i].held
    }

    /** Arrays have one owner: a live buffer or a pool. */
    ghost predicate Owned()
      reads this, bufs, alloc
    {
      && (forall i, j :: 0 <= i < j < |bufs| ==>
           bufs[i] != bufs[j] && (bufs[i].live && bufs[j].live ==> bufs[i].store != bufs[j].store))
      && (forall i :: 0 <= i < |bufs| && bufs[i].live ==> bufs[i].store !in alloc.Pooled())
    }

    ghost predicate Valid()
      reads this, bufs, (set b | b in bufs :: b.store), alloc
    {
      alloc.Valid() && Matches() && Owned() && Sized(slots)
    }

    /** All arrays the world may write to. */
    ghost function Arrays(): set<array<byte>>
      reads this, bufs, alloc
    {
      (set b | b in bufs :: b.store) + alloc.Pooled()
    }

    constructor ()
      ensures Valid() && slots == [] && bufs == [] && fresh(alloc) && Arrays() == {}
    {
      alloc := new Allocator();
      bufs, held, slots := [], [], [];
    }

    method Make(size: nat)
      requires Valid()
      modifies this, alloc
      ensures Valid() && slots == Step(old(slots), New(size)).0
      ensures |bufs| == |old(bufs)| + 1 && bufs[..|old(bufs)|] == old(bufs) && fresh(bufs[|old(bufs)|])
      ensures forall a :: a in Arrays() ==> a in old(Arrays()) || fresh(a)
    {
      hide Fits, PutClass, Allocator.Pooled, Allocator.Valid, Buffer.Valid, Buffer.Usable, Buffer.Contents;
      var b := new Buffer.NewSize(size, alloc);
      var s := Slot(size, 0 < size, false, 0, []);
      FitsFresh(b, s);
      bufs, held := bufs + [b], held + [false];
      slots := slots + [s];
      forall j | 0 <= j < |bufs|
        ensures Fits(bufs[j], slots[j]) && held[j] == slots[j].held
      {
        if j < |old(bufs)| {
          assert bufs[j] == old(bufs)[j] && old(Fits(bufs[j], slots[j]));
        }
      }
    }

    /** An operation on buffer `i`. */
    method Touch(op: Op) returns (out: seq<byte>)
      requires Valid() && !op.New? && op.i < |bufs|
      modifies this`held, this`slots, alloc, bufs[op.i], bufs[op.i].store
      ensures Valid() && (slots, out) == Step(old(slots), op)
      ensures Arrays() <= old(Arrays())
    {
      hide SlotStep, Step, Sized, Cursors, Holds, PutClass, Allocator.Pooled, Allocator.Valid;
      var i := op.i;
      ghost var s, next := slots[i], Step(slots, op);
      StepAt(slots, op);
      var h;
      out, h := Apply(bufs[i], s, held[i], op, alloc);
      held, slots := held[i := h], next.0;
      forall j | 0 <= j < |bufs|
        ensures Fits(bufs[j], slots[j]) && held[j] == slots[j].held
      {
        if j != i {
          assert old(Fits(bufs[j], slots[j])) && slots[j] == old(slots[j]) && held[j] == old(held[j]);
          assert bufs[j] != bufs[i] && (bufs[j].live && old(bufs[i].live) ==> bufs[j].store != bufs[i].store);
        }
      }
    }

    /** Any run of any operations on any world behaves like the run of its slots, and ends in a world
        where arrays have one owner. */
    method Perform(ops: seq<Op>) returns (outs: seq<seq<byte>>)
      requires Valid()
      modifies this, alloc, bufs, Arrays()
      ensures Valid() && (slots, outs) == Run(old(slots), ops)
      // live buffers have arrays of their own, none of them pooled; no array is pooled twice, and none
      // while a reader still has unread bytes in it
      ensures Owned() && alloc.Once() && |held| == |bufs|
      ensures forall i :: 0 <= i < |bufs| && held[i] && bufs[i].r < bufs[i].w ==> bufs[i].live && bufs[i].store !in alloc.Pooled()
    {
      hide *;
      outs := [];
      Parts();
      RunNothing(slots, ops);
      for k := 0 to |ops|
        invariant Valid() && Sized(old(slots)) && (slots, outs) == Run(old(slots), ops[..k])
        invariant forall a :: a in Arrays() ==> a in old(Arrays()) || fresh(a)
        invariant forall b :: b in bufs ==> b in old(bufs) || fresh(b)
      {
        Parts();
        RunFurther(old(slots), ops, k);
        ghost var before := outs;
        var out: seq<byte> := [];
        if ops[k].New? {
          Make(ops[k].size);
        } else if ops[k].i < |bufs| {
          assert bufs[ops[k].i] in bufs && bufs[ops[k].i].store in Arrays();
          out := Touch(ops[k]);
        }
        outs := outs + [out];
      }
      assert ops[..|ops|] == ops;
      Parts();
    }

    lemma Parts()
      requires Valid()
      ensures |bufs| == |slots| == |held| && Sized(slots) && Owned() && alloc.Once()
      ensures forall i :: 0 <= i < |bufs| ==> bufs[i].store in Arrays()
      ensures forall i :: 0 <= i < |bufs| && held[i] && bufs[i].r < bufs[i].w ==> bufs[i].live && bufs[i].store !in alloc.Pooled()
    {
    }
  }

  lemma StepAt(slots: seq<Slot>, op: Op)
    requires Sized(slots) && !op.New? && op.i < |slots|
    ensures slots[op.i].w <= slots[op.i].size && Sized(Step(slots, op).0)
    ensures Step(slots, op) == (slots[op.i := SlotStep(slots[op.i], op).0], SlotStep(slots[op.i], op).1)
  {
  }

  lemma RunNothing(slots: seq<Slot>, ops: seq<Op>)
    requires Sized(slots)
    ensures Run(slots, ops[..0]) == (slots, [])
  {
  }

  lemma RunFurther(slots: seq<Slot>, ops: seq<Op>, k: nat)
    requires Sized(slots) && k < |ops|
    ensures var (before, outs) := Run(slots, ops[..k]);
      && Sized(before) && Run(slots, ops[..k + 1]) == (Step(before, ops[k]).0, outs + [Step(before, ops[k]).1])
      && (ops[k].New? ==> Step(before, ops[k]).1 == [])
      && (!ops[k].New? && |before| <= ops[k].i ==> Step(before, ops[k]) == (before, []))
      && (ops[k].New? ==> ops[k] == New(ops[k].size))
  {
    assert ops[..k + 1][..k] == ops[..k];
  }

  // ---------------------------------------------------------------- slots are queues

  /** All bytes that a run writes to slot `i`, and all that come out of it. */
  function AllWritten(ops: seq<Op>, i: nat): seq<byte> {
    if ops == [] then []
    else
      var op := ops[|ops| - 1];
      AllWritten(ops[..|ops| - 1], i) + if op.Write? && op.i == i then op.bs else []
  }

  function AllTaken(ops: seq<Op>, outs: seq<seq<byte>>, i: nat): seq<byte>
    requires |ops| == |outs|
  {
    if ops == [] then []
    else
      var op, n := ops[|ops| - 1], |ops| - 1;
      AllTaken(ops[..n], outs[..n], i) + if (op.Read? || op.ReadCached?) && op.i == i then outs[n] else []
  }

  /** What a slot for `size` bytes accepts of them, after `w` bytes. */
  function Accepted(s: Slot, written: seq<byte>): seq<byte>
    requires s.w <= s.size
  {
    s.bytes + written[..Min(s.size - s.w, |written|)]
  }

  lemma {:induction false} RunShape(slots: seq<Slot>, ops: seq<Op>)
    requires Sized(slots)
    ensures |Run(slots, ops).1| == |ops| && |slots| <= |Run(slots, ops).0|
  {
    if ops != [] {
      RunShape(slots, ops[..|ops| - 1]);
    }
  }

  lemma AcceptsMore(s0: Slot, written: seq<byte>, bs: seq<byte>)
    requires s0.w <= s0.size
    ensures var room := s0.size - s0.w;
      var n := if |written| < room then Min(room - |written|, |bs|) else 0;
      && Accepted(s0, written + bs) == Accepted(s0, written) + bs[..n]
      && Min(room, |written + bs|) == Min(room, |written|) + n
  {
    var room := s0.size - s0.w;
    if |written| < room {
      var n := Min(room - |written|, |bs|);
      assert (written + bs)[..|written| + n] == written + bs[..n];
      ConcatAssoc(s0.bytes, written, bs[..n]);
    } else {
      assert (written + bs)[..room] == written[..room];
      assert Accepted(s0, written) + bs[..0] == Accepted(s0, written);
    }
  }

  /** What came out and what is left make up what was accepted, if the slot lives. */
  ghost predicate Queued(s: Slot, taken: seq<byte>, accepted: seq<byte>) {
    if s.live then taken + s.bytes == accepted else taken <= accepted
  }

  lemma QueuedWrite(s: Slot, taken: seq<byte>, accepted: seq<byte>, more: seq<byte>)
    requires Queued(s, taken, accepted)
    ensures s.live ==> taken + (s.bytes + more) == accepted + more
    ensures taken <= accepted + more && taken <= accepted
  {
    ConcatAssoc(taken, s.bytes, more);
  }

  lemma QueuedRead(s: Slot, taken: seq<byte>, accepted: seq<byte>, out: seq<byte>, left: seq<byte>)
    requires Queued(s, taken, accepted) && s.live && s.bytes == out + left
    ensures (taken + out) + left == accepted && taken + out <= accepted
  {
    ConcatAssoc(taken, out, left);
  }

  /** One operation on a slot. */
  lemma OneSlotStep(s0: Slot, s: Slot, op: Op, written: seq<byte>, taken: seq<byte>)
    requires s0.w <= s0.size && s.w <= s.size == s0.size && !op.New?
    requires s.w == s0.w + Min(s0.size - s0.w, |written|) || !s.live
    requires Queued(s, taken, Accepted(s0, written))
    ensures var (s', out) := SlotStep(s, op);
      var written', taken' := written + (if op.Write? then op.bs else []), taken + if op.Read? || op.ReadCached? then out else [];
      && s'.size == s.size && (s'.w == s0.w + Min(s0.size - s0.w, |written'|) || !s'.live)
      && Queued(s', taken', Accepted(s0, written')) && (s'.live ==> s.live)
  {
    var (s', out) := SlotStep(s, op);
    assert written + [] == written && taken + [] == taken;
    hide Accepted;
    if op.Write? {
      AcceptsMore(s0, written, op.bs);
      var room := s0.size - s0.w;
      QueuedWrite(s, taken, Accepted(s0, written), op.bs[..if |written| < room then Min(room - |written|, |op.bs|) else 0]);
      assert op.bs[..0] == [];
    } else if (op.Read? || op.ReadCached?) && s.live {
      assert s.bytes == out + if s'.live then s'.bytes else [];
      QueuedRead(s, taken, Accepted(s0, written), out, if s'.live then s'.bytes else []);
    } else {
      QueuedWrite(s, taken, Accepted(s0, written), []);
    }
  }

  /** Over any run of any operations on any slots: what came out of a slot is the front of what it accepted,
      and while it lives what it still has is the rest. It accepts everything until it is full. */
  lemma {:induction false} RunIsAQueue(slots: seq<Slot>, ops: seq<Op>, i: nat)
    requires Sized(slots) && i < |slots| && slots[i].live
    ensures var (after, outs) := Run(slots, ops);
      var accepted := Accepted(slots[i], AllWritten(ops, i));
      && |outs| == |ops| && i < |after| && after[i].size == slots[i].size
      && (after[i].live ==> after[i].w == slots[i].w + Min(slots[i].size - slots[i].w, |AllWritten(ops, i)|))
      && Queued(after[i], AllTaken(ops, outs, i), accepted)
  {
    if ops == [] {
      assert [] + slots[i].bytes == slots[i].bytes == slots[i].bytes + [];
    } else {
      var before, op := ops[..|ops| - 1], ops[|ops| - 1];
      var (mid, outs) := Run(slots, before);
      RunIsAQueue(slots, before, i);
      var (after, out) := Step(mid, op);
      var s0, s, written, taken := slots[i], mid[i], AllWritten(before, i), AllTaken(before, outs, i);
      assert Run(slots, ops) == (after, outs + [out]) && (outs + [out])[..|before|] == outs;
      hide Run, Accepted, AllWritten, AllTaken;
      AllOfMore(ops, outs + [out], i);
      if !op.New? && op.i == i {
        OneSlotStep(s0, s, op, written, taken);
      } else {
        assert written + [] == written && taken + [] == taken;
      }
    }
  }

  lemma AllOfMore(ops: seq<Op>, outs: seq<seq<byte>>, i: nat)
    requires ops != [] && |ops| == |outs|
    ensures var op, n := ops[|ops| - 1], |ops| - 1;
      && AllWritten(ops, i) == AllWritten(ops[..n], i) + (if op.Write? && op.i == i then op.bs else [])
      && AllTaken(ops, outs, i) == AllTaken(ops[..n], outs[..n], i) + if (op.Read? || op.ReadCached?) && op.i == i then outs[n] else []
  {
  }

  /** A read on a live slot gets all there is, up to what it has room for; through the cache only while the
      slot is held. */
  lemma ReadGets(slots: seq<Slot>, i: nat, max: nat)
    requires Sized(slots) && i < |slots| && slots[i].live
    ensures |Step(slots, Read(i, max)).1| == Min(max, |slots[i].bytes|)
    ensures |Step(slots, ReadCached(i, max)).1| == if slots[i].held then Min(max, |slots[i].bytes|) else 0
  {
  }
}
