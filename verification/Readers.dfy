/** The reader objects of the package, each operation proved against its function on shapes. */
module Readers {
  import opened Prelude
  import opened Alloc
  import opened Peers
  import opened Buffers
  import opened Counters
  import opened Chains

  /** The mutable part of a BufCachedReader: `taken` when its buf field is nil. */
  class CacheCell {
    var taken: bool

    constructor ()
      ensures !taken
    {
      taken := false;
    }
  }

  /** The mutable part of a counting reader. */
  class CountCell {
    var counters: seq<CounterId>

    constructor (counters: seq<CounterId>)
      ensures this.counters == counters
    {
      this.counters := counters;
    }
  }

  datatype Reader =
    | NoReader
    | Plain(src: Source)
    | Cached(cell: CacheCell, buffer: Buffer, inner: Reader)
    | Counted(count: CountCell, inner: Reader)

  ghost function Objects(r: Reader): set<object> {
    match r
    case NoReader => {}
    case Plain(src) => {src}
    case Cached(cell, b, inner) => {cell, b, b.store} + Objects(inner)
    case Counted(count, inner) => {count} + Objects(inner)
  }

  /** What reading from a chain may change. */
  ghost function Touched(r: Reader): set<object> {
    match r
    case NoReader => {}
    case Plain(src) => {src}
    case Cached(_, b, inner) => {b} + Touched(inner)
    case Counted(_, inner) => Touched(inner)
  }

  /** No two links share a part, and a held buffer with unread bytes has not been freed. A reader whose
      buffer was picked has none. */
  ghost predicate Valid(r: Reader)
    reads Objects(r)
  {
    match r
    case NoReader => true
    case Plain(src) => true
    case Cached(cell, b, inner) =>
      && cell !in Objects(inner) && b !in Objects(inner) && b.store !in Objects(inner)
      && (cell.taken || (b.Valid() && (b.live || b.r == b.w)))
      && Valid(inner)
    case Counted(count, inner) => count !in Objects(inner) && !inner.NoReader? && Valid(inner)
  }

  ghost function Abs(r: Reader): Shape
    requires Valid(r)
    reads Objects(r)
  {
    match r
    case NoReader => SNone
    case Plain(src) => SPlain(src.script)
    case Cached(cell, b, inner) => SCached(cell.taken, if cell.taken then [] else b.Contents(), Abs(inner))
    case Counted(count, inner) => SCounted(count.counters, Abs(inner))
  }

  /** The arrays of the buffers that the chain still holds. */
  ghost function LiveStores(r: Reader): set<array<byte>>
    reads Objects(r)
  {
    match r
    case NoReader => {}
    case Plain(src) => {}
    case Cached(cell, b, inner) => (if !cell.taken && b.live then {b.store} else {}) + LiveStores(inner)
    case Counted(count, inner) => LiveStores(inner)
  }

  /** The ledger and the allocator are no part of a chain, and reading changes parts of it only. */
  lemma {:induction false} Parts(r: Reader)
    ensures Touched(r) <= Objects(r)
    ensures forall o :: o in Objects(r) ==> !(o is Ledger) && !(o is Allocator) && !(o is Sink)
    ensures forall o :: o in Touched(r) ==> o is Source || o is Buffer
  {
    match r
    case NoReader =>
    case Plain(_) =>
    case Cached(_, _, inner) => Parts(inner);
    case Counted(_, inner) => Parts(inner);
  }

  lemma {:induction false} LiveStoresAreParts(r: Reader)
    ensures forall a :: a in LiveStores(r) ==> a in Objects(r)
  {
    match r
    case NoReader =>
    case Plain(_) =>
    case Cached(_, _, inner) => LiveStoresAreParts(inner);
    case Counted(_, inner) => LiveStoresAreParts(inner);
  }

  lemma {:induction false} AbsIsSound(r: Reader)
    requires Valid(r)
    ensures Sound(Abs(r)) && (Abs(r).SNone? <==> r.NoReader?) && (Abs(r).SCounted? <==> r.Counted?)
    ensures Abs(r).SCached? <==> r.Cached?
  {
    match r
    case NoReader =>
    case Plain(_) =>
    case Cached(_, _, inner) => AbsIsSound(inner);
    case Counted(_, inner) => AbsIsSound(inner);
  }

  /** How many bytes a buffer has left, the references to it, and whether it was not freed. */
  datatype Hold = Hold(unread: int, ref: int, live: bool)

  ghost function BuffersOf(r: Reader): set<Buffer> {
    match r
    case NoReader => {}
    case Plain(_) => {}
    case Cached(_, b, inner) => {b} + BuffersOf(inner)
    case Counted(_, inner) => BuffersOf(inner)
  }

  ghost function Holding(r: Reader): map<Buffer, Hold>
    reads BuffersOf(r)
  {
    match r
    case NoReader => map[]
    case Plain(_) => map[]
    case Cached(_, b, inner) => Holding(inner)[b := Hold(b.w - b.r, b.ref, b.live)]
    case Counted(_, inner) => Holding(inner)
  }

  /** A buffer that lost its last byte lost a reference with it, and its array is in a pool if nobody
      else holds it. Any other buffer is held as before. */
  ghost predicate Released(was: map<Buffer, Hold>, now: map<Buffer, Hold>, pooled: set<array<byte>>) {
    && was.Keys == now.Keys
    && forall b :: b in was ==>
         && now[b].unread <= was[b].unread
         && if 0 < was[b].unread && now[b].unread <= 0 then
              now[b].ref == was[b].ref - 1 && now[b].live == (0 < now[b].ref)
              && (now[b].ref <= 0 && b.managed ==> b.store in pooled)
            else now[b].ref == was[b].ref && now[b].live == was[b].live
  }

  lemma NothingReleased(h: map<Buffer, Hold>, pooled: set<array<byte>>)
    ensures Released(h, h, pooled)
  {
  }

  lemma ReleasedThen(a: map<Buffer, Hold>, b: map<Buffer, Hold>, c: map<Buffer, Hold>, p: set<array<byte>>, q: set<array<byte>>)
    requires Released(a, b, p) && Released(b, c, q) && p <= q
    ensures Released(a, c, q)
  {
  }

  lemma {:induction false} BuffersAreParts(r: Reader)
    ensures forall b :: b in BuffersOf(r) ==> b in Objects(r)
  {
    match r
    case NoReader =>
    case Plain(_) =>
    case Cached(_, _, inner) => BuffersAreParts(inner);
    case Counted(_, inner) => BuffersAreParts(inner);
  }

  /** `Read` on any chain. No array of a buffer that the chain still holds gets into a pool. */
  method Read(r: Reader, max: nat, led: Ledger, alloc: Allocator) returns (got: seq<byte>, err: Option<Error>)
    requires Valid(r) && !r.NoReader? && alloc.Valid() && LiveStores(r) !! alloc.Pooled()
    modifies Touched(r), led, alloc
    ensures Valid(r) && alloc.Valid() && LiveStores(r) !! alloc.Pooled()
    ensures (got, err, Abs(r)) == ReadStep(old(Abs(r)), max)
    ensures forall c: CounterId :: led.totals(c) == old(led.totals)(c) + ReadCharge(old(Abs(r)), max, c)
    ensures forall a :: a in alloc.Pooled() ==> a in old(alloc.Pooled()) || a in Objects(r)
    ensures old(alloc.Pooled()) <= alloc.Pooled() && Released(old(Holding(r)), Holding(r), alloc.Pooled())
    decreases r, 1
  {
    match r
    case Plain(src) =>
      got, err := src.Read(max);
    case Counted(_, _) =>
      got, err := ReadCounted(r, max, led, alloc);
    case Cached(_, _, _) =>
      got, err := ReadCached(r, max, led, alloc);
  }

  method ReadCounted(r: Reader, max: nat, led: Ledger, alloc: Allocator) returns (got: seq<byte>, err: Option<Error>)
    requires Valid(r) && r.Counted? && alloc.Valid() && LiveStores(r) !! alloc.Pooled()
    modifies Touched(r), led, alloc
    ensures Valid(r) && alloc.Valid() && LiveStores(r) !! alloc.Pooled()
    ensures (got, err, Abs(r)) == ReadStep(old(Abs(r)), max)
    ensures forall c: CounterId :: led.totals(c) == old(led.totals)(c) + ReadCharge(old(Abs(r)), max, c)
    ensures forall a :: a in alloc.Pooled() ==> a in old(alloc.Pooled()) || a in Objects(r)
    ensures old(alloc.Pooled()) <= alloc.Pooled() && Released(old(Holding(r)), Holding(r), alloc.Pooled())
    decreases r, 0
  {
    Parts(r);
    hide Released, Allocator.Pooled, Allocator.Valid;
    Parts(r.inner);
    BuffersAreParts(r.inner);
    got, err := Read(r.inner, max, led, alloc);
    ghost var holding := Holding(r.inner);
    assert allocated(Objects(r.inner)) && allocated(BuffersOf(r.inner));
    if |got| > 0 {
      led.Call(r.count.counters, |got|);
    } else {
      assert forall c: CounterId :: Charge(0, r.count.counters, c) == 0;
    }
    assert Holding(r.inner) == holding;
  }

  method ReadCached(r: Reader, max: nat, led: Ledger, alloc: Allocator) returns (got: seq<byte>, err: Option<Error>)
    requires Valid(r) && r.Cached? && alloc.Valid() && LiveStores(r) !! alloc.Pooled()
    modifies Touched(r), led, alloc
    ensures Valid(r) && alloc.Valid() && LiveStores(r) !! alloc.Pooled()
    ensures (got, err, Abs(r)) == ReadStep(old(Abs(r)), max)
    ensures forall c: CounterId :: led.totals(c) == old(led.totals)(c) + ReadCharge(old(Abs(r)), max, c)
    ensures forall a :: a in alloc.Pooled() ==> a in old(alloc.Pooled()) || a in Objects(r)
    ensures old(alloc.Pooled()) <= alloc.Pooled() && Released(old(Holding(r)), Holding(r), alloc.Pooled())
    decreases r, 0
  {
    hide *;
    ghost var before, h0, h1, pooled := Abs(r), Holding(r), Holding(r), alloc.Pooled();
    CachedIs(r);
    CachedStep(before, max);
    Parts(r);
    NothingReleased(h0, pooled);
    var offset: seq<byte> := [];
    if !r.cell.taken && r.buffer.r != r.buffer.w {
      offset := TakeCached(r, max, alloc);
      h1, pooled := Holding(r), alloc.Pooled();
      CachedIs(r);
      if |offset| == max {
        return offset, None;
      }
      assert before.bytes[..|offset|] == before.bytes && before.bytes[|offset|..] == [];
    }
    if r.inner.NoReader? {
      return [], Some(EOF);
    }
    var rest;
    rest, err := ReadPast(r, max - |offset|, led, alloc);
    got := offset + rest;
    ReleasedThen(h0, h1, Holding(r), pooled, alloc.Pooled());
  }

  lemma CachedIs(r: Reader)
    requires Valid(r) && r.Cached?
    ensures Valid(r.inner) && (r.cell.taken || r.buffer.Valid()) && Touched(r.inner) <= Touched(r) && Objects(r.inner) <= Objects(r)
    ensures r.buffer in Touched(r)
    ensures Abs(r) == SCached(r.cell.taken, if r.cell.taken then [] else r.buffer.Contents(), Abs(r.inner))
    ensures Abs(r).bytes != [] <==> !r.cell.taken && r.buffer.r != r.buffer.w
    ensures Abs(r).inner.SNone? <==> r.inner.NoReader?
  {
    AbsIsSound(r.inner);
  }

  /** A read on a cached reader, by cases. */
  lemma CachedStep(s: Shape, max: nat)
    requires s.SCached?
    ensures s.bytes != [] && max <= |s.bytes| ==>
      && ReadStep(s, max) == (s.bytes[..max], None, SCached(s.taken, s.bytes[max..], s.inner))
      && forall c: CounterId :: ReadCharge(s, max, c) == 0
    ensures !(s.bytes != [] && max <= |s.bytes|) && s.inner.SNone? ==>
      && ReadStep(s, max) == ([], Some(EOF), SCached(s.taken, [], s.inner))
      && forall c: CounterId :: ReadCharge(s, max, c) == 0
    ensures !(s.bytes != [] && max <= |s.bytes|) && !s.inner.SNone? ==>
      var (got, err, rest) := ReadStep(s.inner, max - |s.bytes|);
      && ReadStep(s, max) == (s.bytes + got, err, SCached(s.taken, [], rest))
      && forall c: CounterId :: ReadCharge(s, max, c) == ReadCharge(s.inner, max - |s.bytes|, c)
    ensures |s.bytes| <= max || s.bytes != []
  {
  }

  /** The second half: the buffer has nothing left, the reader under it is asked for the rest. */
  method ReadPast(r: Reader, max: nat, led: Ledger, alloc: Allocator) returns (got: seq<byte>, err: Option<Error>)
    requires Valid(r) && r.Cached? && Abs(r).bytes == [] && !r.inner.NoReader?
    requires alloc.Valid() && LiveStores(r) !! alloc.Pooled()
    modifies Touched(r.inner), led, alloc
    ensures Valid(r) && alloc.Valid() && LiveStores(r) !! alloc.Pooled()
    ensures (got, err, Abs(r.inner)) == ReadStep(old(Abs(r.inner)), max)
    ensures Abs(r) == SCached(old(r.cell.taken), [], Abs(r.inner))
    ensures forall c: CounterId :: led.totals(c) == old(led.totals)(c) + ReadCharge(old(Abs(r.inner)), max, c)
    ensures forall a :: a in alloc.Pooled() ==> a in old(alloc.Pooled()) || a in Objects(r.inner)
    ensures old(alloc.Pooled()) <= alloc.Pooled() && Released(old(Holding(r)), Holding(r), alloc.Pooled())
    decreases r.inner, 2
  {
    Parts(r.inner);
    LiveStoresAreParts(r.inner);
    BuffersAreParts(r.inner);
    got, err := Read(r.inner, max, led, alloc);
    LiveStoresAreParts(r.inner);
  }

  /** The first half of BufCachedReader.Read: the cached bytes, and the end of the buffer once they
      are gone. */
  method TakeCached(r: Reader, max: nat, alloc: Allocator) returns (got: seq<byte>)
    requires Valid(r) && r.Cached? && !r.cell.taken && r.buffer.r != r.buffer.w
    requires alloc.Valid() && LiveStores(r) !! alloc.Pooled()
    modifies r.buffer, alloc
    ensures Valid(r) && alloc.Valid() && LiveStores(r) !! alloc.Pooled()
    ensures old(Abs(r)).SCached? && |got| <= |old(Abs(r)).bytes|
    ensures if max <= |old(Abs(r)).bytes| then |got| == max else |got| == |old(Abs(r)).bytes| < max
    ensures got == old(Abs(r)).bytes[..|got|]
    ensures Abs(r) == SCached(false, old(Abs(r)).bytes[|got|..], old(Abs(r)).inner)
    ensures !r.cell.taken
    ensures old(alloc.Pooled()) <= alloc.Pooled() && Released(old(Holding(r)), Holding(r), alloc.Pooled())
    ensures forall a :: a in alloc.Pooled() ==> a in old(alloc.Pooled()) || a in Objects(r)
  {
    Parts(r.inner);
    LiveStoresAreParts(r.inner);
    BuffersAreParts(r.inner);
    ghost var stores, shape, holding := LiveStores(r.inner), Abs(r.inner), Holding(r.inner);
    NothingReleased(holding, alloc.Pooled());
    assert allocated(Objects(r.inner)) && allocated(BuffersOf(r.inner));
    got := r.buffer.ReadAndRelease(max, alloc);
    assert Holding(r.inner) == holding;
    assert Valid(r.inner) && LiveStores(r.inner) == stores && Abs(r.inner) == shape;
  }

  // ---------------------------------------------------------------- building and peeling

  /** The buffer is no part of the chain and can still be read. */
  ghost predicate Apart(b: Buffer, r: Reader)
    reads b
  {
    b !in Objects(r) && b.store !in Objects(r) && b.Valid() && (b.live || b.r == b.w)
  }

  method NewCacheReader(r: Reader, b: Buffer) returns (c: Reader)
    requires Valid(r) && Apart(b, r)
    modifies b`ref
    ensures Valid(c)
    ensures Abs(c) == if b.Contents() == [] then old(Abs(r)) else SCached(false, b.Contents(), old(Abs(r)))
    ensures forall o :: o in Objects(c) ==> o in Objects(r) || o == b || o == b.store || fresh(o)
    ensures b.ref == old(b.ref) + if old(b.Contents()) == [] then 0 else 1
  {
    assert allocated(Objects(r));
    ghost var shape := Abs(r);
    if b.r == b.w {
      return r;
    }
    b.IncRef();
    var cell := new CacheCell();
    assert Valid(r) && Abs(r) == shape;
    c := Cached(cell, b, r);
  }

  /** Different buffers over different arrays, all apart from the chain. */
  ghost predicate AllApart(bs: seq<Buffer>, r: Reader)
    reads set b | b in bs
  {
    && (forall i :: 0 <= i < |bs| ==> Apart(bs[i], r))
    && (forall i, j :: 0 <= i < j < |bs| ==> bs[i] != bs[j] && bs[i].store != bs[j].store)
  }

  ghost function ContentsOf(bs: seq<Buffer>): (cs: seq<seq<byte>>)
    requires forall i :: 0 <= i < |bs| ==> bs[i].Valid()
    reads (set b | b in bs), (set b | b in bs :: b.store)
    ensures |cs| == |bs| && forall i :: 0 <= i < |bs| ==> cs[i] == bs[i].Contents()
  {
    if bs == [] then [] else [bs[0].Contents()] + ContentsOf(bs[1..])
  }

  /** The first `k` buffers are still to be put in front of `r`. */
  ghost predicate Waiting(bs: seq<Buffer>, k: nat, contents: seq<seq<byte>>, r: Reader)
    reads (set b | b in bs), (set b | b in bs :: b.store)
  {
    && k <= |bs| == |contents|
    && (forall j :: 0 <= j < k ==> Apart(bs[j], r) && bs[j].Contents() == contents[j])
    && (forall i, j :: 0 <= i < j < |bs| ==> bs[i] != bs[j] && bs[i].store != bs[j].store)
  }

  /** The buffers from `k` on that are not empty have one more reference than `refs` says. */
  ghost predicate Referenced(bs: seq<Buffer>, k: nat, contents: seq<seq<byte>>, refs: seq<int>)
    reads set b | b in bs
  {
    && |refs| == |bs| == |contents|
    && forall j :: 0 <= j < |bs| ==> bs[j].ref == refs[j] + if k <= j && contents[j] != [] then 1 else 0
  }

  ghost function RefsOf(bs: seq<Buffer>): (refs: seq<int>)
    reads set b | b in bs
    ensures |refs| == |bs| && forall j :: 0 <= j < |bs| ==> refs[j] == bs[j].ref
  {
    if bs == [] then [] else [bs[0].ref] + RefsOf(bs[1..])
  }

  method CacheNext(r: Reader, b: Buffer, ghost bs: seq<Buffer>, ghost k: nat, ghost contents: seq<seq<byte>>,
      ghost refs: seq<int>)
    returns (c: Reader)
    requires Valid(r) && k < |bs| && b == bs[k] && Waiting(bs, k + 1, contents, r) && Referenced(bs, k + 1, contents, refs)
    modifies b`ref
    ensures Valid(c) && Waiting(bs, k, contents, c) && Referenced(bs, k, contents, refs)
    ensures Abs(c) == if contents[k] == [] then old(Abs(r)) else SCached(false, contents[k], old(Abs(r)))
  {
    assert Apart(bs[k], r);
    c := NewCacheReader(r, b);
    forall j | 0 <= j < k
      ensures Apart(bs[j], c) && bs[j].Contents() == contents[j]
    {
      assert old(Apart(bs[j], r));
    }
    assert forall j :: 0 <= j < |bs| && j != k ==> bs[j] != b;
  }

  lemma BuildNothing(s: Shape, contents: seq<seq<byte>>)
    ensures Build(s, contents[|contents|..]) == s
  {
  }

  lemma WaitingAll(bs: seq<Buffer>, r: Reader)
    requires AllApart(bs, r)
    ensures var contents := ContentsOf(bs); Waiting(bs, |bs|, contents, r) && Referenced(bs, |bs|, contents, RefsOf(bs))
  {
  }

  lemma ReferencedAll(bs: seq<Buffer>, contents: seq<seq<byte>>, refs: seq<int>)
    requires Referenced(bs, 0, contents, refs)
    ensures |bs| == |contents| == |refs|
    ensures forall i :: 0 <= i < |bs| ==> bs[i].ref == refs[i] + if contents[i] == [] then 0 else 1
  {
  }

  method NewCacheReaderList(r: Reader, bs: seq<Buffer>) returns (c: Reader)
    requires Valid(r) && AllApart(bs, r)
    modifies (set b | b in bs)`ref
    ensures Valid(c) && Abs(c) == Build(old(Abs(r)), old(ContentsOf(bs)))
    ensures forall i :: 0 <= i < |bs| ==> bs[i].ref == old(RefsOf(bs))[i] + if old(ContentsOf(bs))[i] == [] then 0 else 1
  {
    ghost var base, contents, refs := Abs(r), ContentsOf(bs), RefsOf(bs);
    WaitingAll(bs, r);
    hide *;
    BuildNothing(base, contents);
    c := r;
    for i := |bs| downto 0
      invariant Valid(c) && Waiting(bs, i, contents, c)
      invariant Abs(c) == Build(base, contents[i..]) && Referenced(bs, i, contents, refs)
    {
      BuildAt(base, contents, i);
      c := CacheNext(c, bs[i], bs, i, contents, refs);
    }
    assert contents[0..] == contents;
    ReferencedAll(bs, contents, refs);
  }

  /** The cached readers that peeling goes through, with their buffers. */
  ghost function Peeled(r: Reader): set<object> {
    if r.Cached? then {r.cell, r.buffer} + Peeled(r.inner) else {}
  }

  ghost function Above(r: Reader, k: nat): set<CacheCell> {
    if k == 0 || !r.Cached? then {} else {r.cell} + Above(r.inner, k - 1)
  }

  /** `base` is under `k` cached readers of the chain, whose buffers were picked. */
  ghost predicate Picks(r: Reader, base: Reader, k: nat)
    reads Above(r, k)
  {
    if k == 0 then r == base
    else
      && r.Cached? && r.cell.taken
      && r.cell !in Objects(r.inner) && r.buffer !in Objects(r.inner) && r.buffer.store !in Objects(r.inner)
      && Picks(r.inner, base, k - 1)
  }

  lemma {:induction false} PicksApart(r: Reader, base: Reader, k: nat)
    requires Picks(r, base, k)
    ensures Objects(base) <= Objects(r)
    ensures forall o :: o in Above(r, k) ==> o in Objects(r) && o !in Objects(base)
  {
    if k > 0 {
      PicksApart(r.inner, base, k - 1);
    }
  }

  lemma {:induction false} PicksOneMore(r: Reader, base: Reader, k: nat)
    requires Picks(r, base, k) && base.Cached? && Picks(base, base.inner, 1)
    ensures Picks(r, base.inner, k + 1)
  {
    if k > 0 {
      PicksOneMore(r.inner, base, k - 1);
    }
  }

  /** Whatever happens to the base, the chain around it stays what it is. */
  lemma {:induction false} PickedStill(r: Reader, base: Reader, k: nat)
    requires Picks(r, base, k) && Valid(base)
    ensures Valid(r) && Abs(r) == Under(k, Abs(base)) && LiveStores(r) == LiveStores(base)
  {
    if k > 0 {
      PickedStill(r.inner, base, k - 1);
    }
  }

  /** PickReaderCache: on a cached reader, the reader under it and the buffer it still had. */
  method PickReaderCache(r: Reader) returns (inner: Reader, buffer: Option<Buffer>)
    requires Valid(r)
    modifies if r.Cached? then {r.cell, r.buffer} else {}
    ensures Valid(inner) && LiveStores(inner) <= old(LiveStores(r))
    ensures !r.Cached? ==> inner == r && buffer == None
    ensures r.Cached? ==> inner == r.inner && r.cell.taken && Abs(inner) == old(Abs(r)).inner
    ensures r.Cached? ==> buffer == if old(r.cell.taken) then None else Some(r.buffer)
    ensures r.Cached? ==>
      && r.buffer.ref == old(r.buffer.ref) - (if old(r.cell.taken) then 0 else 1)
      && r.buffer.live == old(r.buffer.live) && r.buffer.r == old(r.buffer.r) && r.buffer.w == old(r.buffer.w)
    ensures buffer.Some? ==>
      && Apart(buffer.value, inner) && buffer.value.Contents() == old(Abs(r)).bytes
      && buffer.value.ref == old(r.buffer.ref) - 1 && buffer.value.live == old(r.buffer.live)
      && (buffer.value.live ==> buffer.value.store in old(LiveStores(r)))
  {
    if !r.Cached? {
      return r, None;
    }
    assert allocated(Objects(r.inner));
    ghost var shape, stores := Abs(r.inner), LiveStores(r.inner);
    inner := r.inner;
    buffer := if r.cell.taken then None else Some(r.buffer);
    if buffer.Some? {
      buffer.value.DecRef();
    }
    r.cell.taken := true;
    assert Valid(inner) && Abs(inner) == shape && LiveStores(inner) == stores;
  }

  /** The picked buffers with their contents, apart from each other and from what is left; their
      arrays are among those the chain held. */
  ghost predicate Picked(bs: seq<Buffer>, contents: seq<seq<byte>>, base: Reader, all: set<object>, stores: set<array<byte>>)
    reads (set b | b in bs), (set b | b in bs :: b.store)
  {
    && |bs| == |contents| && AllApart(bs, base)
    && (forall i :: 0 <= i < |bs| ==>
         && bs[i] in all && bs[i].store in all && bs[i].live && bs[i].store in stores
         && bs[i].Contents() == contents[i])
  }

  lemma PickedOneMore(bs: seq<Buffer>, contents: seq<seq<byte>>, base: Reader, all: set<object>,
                      stores: set<array<byte>>, b: Buffer, bytes: seq<byte>)
    requires Picked(bs, contents, base, all, stores) && Fetched(b, base, bytes, all, stores, bs) && b.r != b.w
    ensures Picked(bs + [b], contents + [bytes], base, all, stores)
  {
  }

  lemma FetchedBytes(b: Buffer, inner: Reader, bytes: seq<byte>, all: set<object>, stores: set<array<byte>>, bs: seq<Buffer>)
    requires Fetched(b, inner, bytes, all, stores, bs)
    ensures b.r == b.w <==> bytes == []
  {
  }

  /** A buffer that was just picked, with its bytes: apart from what is left and from those picked before. */
  ghost predicate Fetched(b: Buffer, inner: Reader, bytes: seq<byte>, all: set<object>, stores: set<array<byte>>, bs: seq<Buffer>)
    reads b, b.store
  {
    && Apart(b, inner) && b in all && b.store in all && b.Contents() == bytes
    && (b.live ==> b.store in stores) && (b.r == b.w <==> bytes == []) && (b.r != b.w ==> b.live)
    && forall i :: 0 <= i < |bs| ==> bs[i] != b && bs[i].store != b.store
  }

  /** PickReaderCache in the middle of a walk: the buffers picked before are not affected. */
  method PickNext(ghost root: Reader, r: Reader, bs: seq<Buffer>, ghost contents: seq<seq<byte>>, ghost all: set<object>,
      ghost stores: set<array<byte>>)
    returns (inner: Reader, buffer: Option<Buffer>)
    requires Valid(r) && Picked(bs, contents, r, all, stores) && Objects(r) <= all && LiveStores(r) <= stores
    requires BuffersOf(r) <= BuffersOf(root)
    modifies if r.Cached? then {r.cell, r.buffer} else {}
    ensures Valid(inner) && Picked(bs, contents, inner, all, stores) && Objects(inner) <= Objects(r)
    ensures Peeled(inner) <= Peeled(r) && LiveStores(inner) <= old(LiveStores(r))
    ensures buffer.None? ==> Abs(inner) == Peel(old(Abs(r))).0 && Peel(old(Abs(r))).1 == []
    ensures r.Cached? ==> inner == r.inner && Picks(r, inner, 1) && Untaken(inner) == old(Untaken(r.inner))
    ensures r.Cached? ==> (buffer.None? <==> old(r.cell.taken))
    ensures AfterPick(old(Holding(root)), Holding(root), r, buffer.Some?)
    ensures !r.Cached? ==> inner == r && buffer == None
    ensures PeelDepth(old(Abs(r))) == if !r.Cached? then 0 else if buffer.None? then 1 else 1 + PeelDepth(Abs(inner))
    ensures buffer.Some? ==>
      && r.Cached? && inner == r.inner && old(Abs(r)).SCached? && !old(Abs(r)).taken && Abs(inner) == old(Abs(r)).inner
      && Fetched(buffer.value, inner, old(Abs(r)).bytes, all, stores, bs)
  {
    hide Holding, BuffersOf, Untaken, PrefixCells, AfterPick;
    AbsIsSound(r);
    inner, buffer := PickHeld(root, r);
  }

  /** PickReaderCache, and what it does to the buffers of a chain that `r` is a part of. */
  method PickHeld(ghost root: Reader, r: Reader) returns (inner: Reader, buffer: Option<Buffer>)
    requires Valid(r) && BuffersOf(r) <= BuffersOf(root)
    modifies if r.Cached? then {r.cell, r.buffer} else {}
    ensures Valid(inner) && LiveStores(inner) <= old(LiveStores(r))
    ensures !r.Cached? ==> inner == r && buffer == None
    ensures r.Cached? ==> inner == r.inner && r.cell.taken && Abs(inner) == old(Abs(r)).inner
    ensures r.Cached? ==> buffer == if old(r.cell.taken) then None else Some(r.buffer)
    ensures buffer.Some? ==>
      && Apart(buffer.value, inner) && buffer.value.Contents() == old(Abs(r)).bytes
      && buffer.value.live == old(r.buffer.live)
      && (buffer.value.live ==> buffer.value.store in old(LiveStores(r)))
    ensures r.Cached? ==> Untaken(inner) == old(Untaken(r.inner))
    ensures AfterPick(old(Holding(root)), Holding(root), r, buffer.Some?)
  {
    hide *;
    ghost var before, rest := Holding(root), if r.Cached? then Untaken(r.inner) else {};
    HoldingAll(root);
    if r.Cached? {
      UntakenInside(r);
    }
    assert allocated(BuffersOf(root)) && allocated(PrefixCells(r));
    inner, buffer := PickReaderCache(r);
    HoldingAll(root);
    AfterPickIs(before, Holding(root), r, buffer.Some?);
  }

  /** Picking takes one reference off the picked buffer. */
  ghost predicate AfterPick(before: map<Buffer, Hold>, now: map<Buffer, Hold>, r: Reader, picked: bool) {
    now == if r.Cached? && picked && r.buffer in before then before[r.buffer := before[r.buffer].(ref := before[r.buffer].ref - 1)] else before
  }

  lemma AfterPickIs(before: map<Buffer, Hold>, now: map<Buffer, Hold>, r: Reader, picked: bool)
    requires now.Keys == before.Keys && (picked ==> r.Cached?)
    requires forall b :: b in before ==> now[b] == before[b].(ref := before[b].ref - if picked && b == r.buffer then 1 else 0)
    ensures AfterPick(before, now, r, picked)
  {
  }

  /** The buffers that a walk from here picks, up to the first reader without one. */
  ghost function Untaken(r: Reader): set<Buffer>
    reads PrefixCells(r)
  {
    if r.Cached? && !r.cell.taken then {r.buffer} + Untaken(r.inner) else {}
  }

  ghost function PrefixCells(r: Reader): set<CacheCell> {
    if r.Cached? then {r.cell} + PrefixCells(r.inner) else {}
  }

  /** Since `was` each of the buffers `dropped` lost one reference, and nothing else changed about any. */
  ghost predicate Dropped(was: map<Buffer, Hold>, now: map<Buffer, Hold>, dropped: set<Buffer>) {
    now.Keys == was.Keys && forall b :: b in was ==> now[b] == was[b].(ref := was[b].ref - if b in dropped then 1 else 0)
  }

  lemma {:induction false} HoldingAll(r: Reader)
    ensures Holding(r).Keys == BuffersOf(r)
    ensures forall b :: b in Holding(r) ==> Holding(r)[b] == Hold(b.w - b.r, b.ref, b.live)
  {
    match r
    case NoReader =>
    case Plain(_) =>
    case Cached(_, _, inner) => HoldingAll(inner);
    case Counted(_, inner) => HoldingAll(inner);
  }

  lemma DroppedOneMore(was: map<Buffer, Hold>, before: map<Buffer, Hold>, now: map<Buffer, Hold>, dropped: set<Buffer>, b: Buffer)
    requires Dropped(was, before, dropped) && b in before && b !in dropped
    requires now == before[b := before[b].(ref := before[b].ref - 1)]
    ensures Dropped(was, now, dropped + {b})
  {
  }

  lemma {:induction false} PrefixParts(r: Reader)
    ensures forall o :: o in PrefixCells(r) ==> o in Objects(r)
  {
    if r.Cached? {
      PrefixParts(r.inner);
    }
  }

  lemma {:induction false} PicksBuffers(r: Reader, base: Reader, k: nat)
    requires Picks(r, base, k)
    ensures BuffersOf(base) <= BuffersOf(r)
  {
    if k > 0 {
      PicksBuffers(r.inner, base, k - 1);
    }
  }

  /** Where a walk is: the buffers picked so far lost a reference, and the others it will pick are still to
      come. */
  ghost predicate Walked(was: map<Buffer, Hold>, now: map<Buffer, Hold>, dropped: set<Buffer>, whole: set<Buffer>, r: Reader)
    reads PrefixCells(r)
  {
    Dropped(was, now, dropped) && whole == dropped + Untaken(r) && forall b :: b in dropped ==> b !in Objects(r)
  }

  lemma WalkCases(was: map<Buffer, Hold>, now: map<Buffer, Hold>, dropped: set<Buffer>, whole: set<Buffer>, r: Reader, rest: set<Buffer>)
    requires Walked(was, now, dropped, whole, r) && (r.Cached? ==> rest == Untaken(r.inner))
    requires r.Cached? ==> r.buffer in Objects(r) && r.buffer !in Objects(r.inner) && Objects(r.inner) <= Objects(r)
    ensures Dropped(was, now, dropped)
    ensures !r.Cached? || r.cell.taken ==> whole == dropped
    ensures r.Cached? && !r.cell.taken ==> r.buffer !in dropped && whole == dropped + {r.buffer} + rest
    ensures r.Cached? ==> forall b :: b in dropped + {r.buffer} ==> b !in Objects(r.inner)
  {
  }

  lemma UntakenInside(r: Reader)
    requires r.Cached? && Valid(r)
    ensures r.buffer in BuffersOf(r) && r.buffer in Objects(r) && r.buffer !in Objects(r.inner)
    ensures PrefixCells(r.inner) <= PrefixCells(r) && r.cell !in PrefixCells(r.inner) && Objects(r.inner) <= Objects(r)
    ensures Untaken(r) == if r.cell.taken then {} else {r.buffer} + Untaken(r.inner)
  {
    PrefixParts(r.inner);
  }

  /** The same, `k` links below the chain that the walk started from. */
  method PickFurther(ghost root: Reader, ghost k: nat, r: Reader, bs: seq<Buffer>, ghost contents: seq<seq<byte>>,
      ghost all: set<object>, ghost stores: set<array<byte>>, ghost was: map<Buffer, Hold>, ghost dropped: set<Buffer>,
      ghost whole: set<Buffer>)
    returns (inner: Reader, buffer: Option<Buffer>, ghost depth: nat)
    requires Valid(r) && Picked(bs, contents, r, all, stores) && Objects(r) <= all && LiveStores(r) <= stores
    requires Picks(root, r, k) && Walked(was, Holding(root), dropped, whole, r)
    modifies if r.Cached? then {r.cell, r.buffer} else {}
    ensures Valid(inner) && Picked(bs, contents, inner, all, stores) && Objects(inner) <= Objects(r)
    ensures Peeled(inner) <= Peeled(r) && LiveStores(inner) <= old(LiveStores(r))
    ensures Picks(root, inner, depth)
    ensures buffer.Some? ==> r.Cached? && Walked(was, Holding(root), dropped + {r.buffer}, whole, inner)
    ensures buffer.None? ==> Dropped(was, Holding(root), whole)
    ensures k + PeelDepth(old(Abs(r))) == depth + if buffer.None? then 0 else PeelDepth(Abs(inner))
    ensures buffer.None? ==> Abs(inner) == Peel(old(Abs(r))).0 && Peel(old(Abs(r))).1 == []
    ensures buffer.Some? ==>
      && r.Cached? && inner == r.inner && old(Abs(r)).SCached? && !old(Abs(r)).taken && Abs(inner) == old(Abs(r)).inner
      && Fetched(buffer.value, inner, old(Abs(r)).bytes, all, stores, bs)
  {
    hide *;
    PicksApart(root, r, k);
    PicksBuffers(root, r, k);
    PeeledHere(r);
    if r.Cached? {
      UntakenInside(r);
    }
    ghost var before, taken := Holding(root), r.Cached? && r.cell.taken;
    ghost var rest := if r.Cached? then Untaken(r.inner) else {};
    HoldingAll(root);
    WalkCases(was, before, dropped, whole, r, rest);
    assert allocated(Above(root, k));
    inner, buffer := PickNext(root, r, bs, contents, all, stores);
    WalkStep(was, before, Holding(root), dropped, whole, r, taken, buffer.Some?, rest);
    depth := k;
    if r.Cached? {
      assert Picks(root, r, k);
      PicksOneMore(root, r, k);
      depth := k + 1;
    }
  }

  lemma WalkStep(was: map<Buffer, Hold>, before: map<Buffer, Hold>, now: map<Buffer, Hold>, dropped: set<Buffer>,
                 whole: set<Buffer>, r: Reader, taken: bool, picked: bool, rest: set<Buffer>)
    requires Dropped(was, before, dropped) && AfterPick(before, now, r, picked) && (picked <==> r.Cached? && !taken)
    requires r.Cached? ==> r.buffer in before && rest == Untaken(r.inner)
    requires !picked ==> whole == dropped
    requires picked ==> r.buffer !in dropped && whole == dropped + {r.buffer} + rest
    requires r.Cached? ==> forall b :: b in dropped + {r.buffer} ==> b !in Objects(r.inner)
    ensures picked ==> Walked(was, now, dropped + {r.buffer}, whole, r.inner)
    ensures !picked ==> Dropped(was, now, whole)
  {
    if picked {
      DroppedOneMore(was, before, now, dropped, r.buffer);
    }
  }

  /** PickReaderCacheList: picks the non-empty buffers off the front of a chain. */
  method PickReaderCacheList(r: Reader) returns (base: Reader, bs: seq<Buffer>)
    requires Valid(r)
    modifies Peeled(r)
    ensures Valid(base) && Objects(base) <= Objects(r) && LiveStores(base) <= old(LiveStores(r))
    ensures Abs(base) == Peel(old(Abs(r))).0
    ensures Picked(bs, Peel(old(Abs(r))).1, base, Objects(r), old(LiveStores(r)))
    ensures Picks(r, base, PeelDepth(old(Abs(r))))
    ensures Dropped(old(Holding(r)), Holding(r), old(Untaken(r)))
  {
    hide *;
    ghost var was, dropped: set<Buffer>, all := Holding(r), {}, Untaken(r);
    WalkStart(r);
    ghost var k: nat, depth := 0, PeelDepth(Abs(r));
    PicksNothing(r);
    ghost var whole, picked: seq<seq<byte>> := Peel(Abs(r)), [];
    base, bs := r, [];
    PeeledParts(r);
    PickedNothing(r);
    PickedSoFar(Abs(r), [], []);
    while true
      invariant Valid(base) && Objects(base) <= Objects(r) && Peeled(base) <= Peeled(r)
      invariant LiveStores(base) <= old(LiveStores(r))
      invariant Picked(bs, picked, base, Objects(r), old(LiveStores(r)))
      invariant whole == (Peel(Abs(base)).0, picked + Peel(Abs(base)).1)
      invariant Walked(was, Holding(r), dropped, all, base)
      invariant 0 <= k && Picks(r, base, k) && depth == k + PeelDepth(Abs(base))
      decreases base
    {
      ghost var shape := Abs(base);
      PickedSoFar(shape, picked, []);
      PeeledHere(base);
      var buffer;
      ghost var above := base;
      base, buffer, k := PickFurther(r, k, base, bs, picked, Objects(r), old(LiveStores(r)), was, dropped, all);
      if buffer.None? {
        break;
      }
      dropped := dropped + {above.buffer};
      PeelOnward(shape, picked);
      FetchedBytes(buffer.value, base, shape.bytes, Objects(r), old(LiveStores(r)), bs);
      if buffer.value.r == buffer.value.w {
        continue;
      }
      PickedOneMore(bs, picked, base, Objects(r), old(LiveStores(r)), buffer.value, shape.bytes);
      bs, picked := bs + [buffer.value], picked + [shape.bytes];
    }
  }

  lemma PickedNothing(r: Reader)
    ensures Picked([], [], r, Objects(r), LiveStores(r))
  {
  }

  lemma WalkStart(r: Reader)
    ensures Walked(Holding(r), Holding(r), {}, Untaken(r), r)
  {
    assert {} + Untaken(r) == Untaken(r);
  }

  lemma PickedSoFar(s: Shape, picked: seq<seq<byte>>, none: seq<seq<byte>>)
    requires none == []
    ensures picked + none == picked && none + Peel(s).1 == Peel(s).1
  {
  }

  lemma PicksNothing(r: Reader)
    ensures Picks(r, r, 0)
  {
  }

  lemma PeeledHere(r: Reader)
    ensures r.Cached? ==> Peeled(r) == {r.cell, r.buffer} + Peeled(r.inner) && r.cell in Objects(r) && r.buffer in Objects(r)
  {
  }

  lemma {:induction false} PeeledParts(r: Reader)
    ensures Peeled(r) <= Objects(r)
    ensures r.Cached? ==> Peeled(r.inner) <= Objects(r.inner)
  {
    if r.Cached? {
      PeeledParts(r.inner);
    }
  }

  /** A cached reader took one reference, and a read and a later pick give it back together, exactly
      when the read leaves bytes in the buffer: both the last byte and the pick drop one. */
  method ReadThenPick(r: Reader, max: nat, led: Ledger, alloc: Allocator) returns (got: seq<byte>, err: Option<Error>)
    requires Valid(r) && r.Cached? && !r.cell.taken && r.buffer.r < r.buffer.w
    requires alloc.Valid() && LiveStores(r) !! alloc.Pooled()
    modifies Touched(r), r.cell, led, alloc
    ensures r.buffer.ref == old(r.buffer.ref) - 1 <==> max < |old(Abs(r)).bytes|
    ensures r.buffer.ref == old(r.buffer.ref) - if max < |old(Abs(r)).bytes| then 1 else 2
  {
    hide *;
    ghost var s, h := Abs(r), Holding(r);
    CachedIs(r);
    CachedStep(s, max);
    HoldingIs(r);
    Parts(r);
    got, err := Read(r, max, led, alloc);
    CachedIs(r);
    HoldingIs(r);
    ReleasedOne(h, Holding(r), alloc.Pooled(), r.buffer);
    var inner, buffer := PickReaderCache(r);
  }

  lemma HoldingIs(r: Reader)
    requires r.Cached?
    ensures r.buffer in Holding(r) && Holding(r)[r.buffer] == Hold(r.buffer.w - r.buffer.r, r.buffer.ref, r.buffer.live)
    ensures Valid(r) && !r.cell.taken ==> |Abs(r).bytes| == r.buffer.w - r.buffer.r
  {
  }

  lemma ReleasedOne(was: map<Buffer, Hold>, now: map<Buffer, Hold>, pooled: set<array<byte>>, b: Buffer)
    requires Released(was, now, pooled) && b in was
    ensures b in now && now[b].ref == was[b].ref - if 0 < was[b].unread && now[b].unread <= 0 then 1 else 0
  {
  }

  // ---------------------------------------------------------------- counting

  ghost function Layers(r: Reader): set<CountCell> {
    if r.Counted? then {r.count} + Layers(r.inner) else {}
  }

  /** `base` is under the counting readers on the outside of the chain. */
  ghost predicate Around(r: Reader, base: Reader) {
    if r.Counted? then r.count !in Objects(r.inner) && !r.inner.NoReader? && Around(r.inner, base) else r == base
  }

  /** Their counters, around another shape. */
  ghost function Recounted(r: Reader, s: Shape): Shape
    reads Layers(r)
  {
    if r.Counted? then SCounted(r.count.counters, Recounted(r.inner, s)) else s
  }

  lemma {:induction false} AroundApart(r: Reader, base: Reader)
    requires Around(r, base)
    ensures Objects(base) <= Objects(r) && !base.Counted?
    ensures forall o :: o in Layers(r) ==> o in Objects(r) && o !in Objects(base)
  {
    if r.Counted? {
      AroundApart(r.inner, base);
    }
  }

  lemma {:induction false} AroundStart(r: Reader, base: Reader, s: Shape)
    requires Valid(r) && Around(r, base)
    ensures Valid(base) && Recounted(r, s) == Rewrap(Abs(r), s)
  {
    if r.Counted? {
      AroundStart(r.inner, base, s);
    } else {
      AbsIsSound(r);
    }
  }

  /** Whatever happens to the base, the counters around it stay what they are. */
  lemma {:induction false} AroundStill(r: Reader, base: Reader)
    requires Around(r, base) && Valid(base)
    ensures Valid(r) && Abs(r) == Recounted(r, Abs(base)) && LiveStores(r) == LiveStores(base)
  {
    if r.Counted? {
      AroundStill(r.inner, base);
    }
  }

  lemma {:induction false} ValidAround(r: Reader, base: Reader)
    requires Valid(r)
    ensures Around(r, base) <==> (if r.Counted? then Around(r.inner, base) else r == base)
  {
  }

  /** UnwrapReadCounter. */
  method UnwrapReadCounter(r: Reader) returns (base: Reader, counters: seq<CounterId>)
    requires Valid(r)
    ensures Valid(base) && Objects(base) <= Objects(r) && LiveStores(base) <= LiveStores(r) && !base.Counted?
    ensures Around(r, base)
    ensures (Abs(base), counters) == Unwrap(old(Abs(r)))
  {
    ghost var whole := Unwrap(Abs(r));
    base, counters := r, [];
    assert [] + whole.1 == whole.1;
    while base.Counted?
      invariant Valid(base) && Objects(base) <= Objects(r) && LiveStores(base) <= LiveStores(r)
      invariant forall b :: Around(base, b) ==> Around(r, b)
      invariant whole == (Unwrap(Abs(base)).0, counters + Unwrap(Abs(base)).1)
      decreases base
    {
      ghost var before := counters;
      forall b | Around(base.inner, b)
        ensures Around(r, b)
      {
        ValidAround(base, b);
      }
      counters := counters + base.count.counters;
      assert before + (base.count.counters + Unwrap(Abs(base.inner)).1) == counters + Unwrap(Abs(base.inner)).1;
      base := base.inner;
    }
    AbsIsSound(base);
    assert counters + [] == counters;
  }

  /** NewReader. An existing counting reader is extended in place, so everyone who holds it calls
      the new counters from now on. */
  method NewReader(r: Reader, counters: seq<CounterId>) returns (c: Reader)
    requires Valid(r)
    modifies if r.Counted? then {r.count} else {}
    ensures Valid(c) && Abs(c) == AddCounters(old(Abs(r)), counters)
    ensures forall o :: o in Objects(c) ==> o in Objects(r) || fresh(o)
    ensures Touched(c) == Touched(r) && LiveStores(c) == old(LiveStores(r))
    ensures r.Counted? ==> c == r && r.count.counters == old(r.count.counters) + counters
    ensures !r.Counted? ==> if r.NoReader? || counters == [] then c == r else c.Counted? && c.inner == r
  {
    AbsIsSound(r);
    if r.NoReader? || |counters| == 0 {
      assert r.Counted? ==> r.count.counters + counters == r.count.counters;
      return r;
    }
    assert allocated(Objects(r));
    if r.Counted? {
      ghost var inner, stores := Abs(r.inner), LiveStores(r.inner);
      assert allocated(Objects(r.inner));
      r.count.counters := r.count.counters + counters;
      assert Valid(r.inner) && Abs(r.inner) == inner && LiveStores(r.inner) == stores;
      return r;
    }
    ghost var shape, stores := Abs(r), LiveStores(r);
    var base, extra := UnwrapReadCounter(r);
    var all := counters;
    if |extra| > 0 {
      all := extra + counters;
    }
    var count := new CountCell(all);
    assert Valid(base) && Abs(base) == shape && LiveStores(base) == stores;
    c := Counted(count, base);
  }
}
