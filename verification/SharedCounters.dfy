/**
 Counter lists as the slices they are: a counting reader keeps the slice that its caller passed, and
 `append` writes into the array of a slice that has room. Elsewhere the lists are values; here is
 when that is right. Writers are built and extended in the same way.
 */
module SharedCounters {
  import opened Prelude
  import opened Counters

  datatype Slice = Slice(data: array<CounterId>, off: nat, len: nat, cap: nat)

  predicate WellFormed(s: Slice) { s.len <= s.cap && s.off + s.cap <= s.data.Length }

  function View(s: Slice): seq<CounterId>
    requires WellFormed(s)
    reads s.data
  {
    s.data[s.off..s.off + s.len]
  }

  /** Where the used part of the slice ends in its array. */
  function End(s: Slice): nat { s.off + s.len }

  predicate Fits(s: Slice, k: nat) { s.len + k <= s.cap }

  function Longer(s: Slice, k: nat): Slice { s.(len := s.len + k) }

  function Overlaid(all: seq<CounterId>, at: nat, more: seq<CounterId>): seq<CounterId>
    requires at + |more| <= |all|
  {
    all[..at] + more + all[at + |more|..]
  }

  method Put(data: array<CounterId>, at: nat, more: seq<CounterId>)
    requires at + |more| <= data.Length
    modifies data
    ensures data[..] == Overlaid(old(data[..]), at, more)
  {
    ghost var was := data[..];
    for i := 0 to |more|
      invariant forall x :: 0 <= x < data.Length ==> data[x] == if at <= x < at + i then more[x - at] else was[x]
    {
      data[at + i] := more[i];
    }
  }

  lemma OverlaidEnd(all: seq<CounterId>, off: nat, at: nat, more: seq<CounterId>)
    requires off <= at && at + |more| <= |all|
    ensures Overlaid(all, at, more)[off..at + |more|] == all[off..at] + more
    ensures Overlaid(all, at, more)[off..at] == all[off..at] && Overlaid(all, at, more)[at..at + |more|] == more
  {
  }

  lemma OverlaidWithNothing(all: seq<CounterId>, at: nat)
    requires at <= |all|
    ensures Overlaid(all, at, []) == all
  {
  }

  /** The builtin: into the array if there is room, otherwise into a new one with `spare` to go. */
  method Append(s: Slice, more: seq<CounterId>, spare: nat) returns (t: Slice)
    requires WellFormed(s)
    modifies s.data
    ensures WellFormed(t) && View(t) == old(View(s)) + more
    ensures Fits(s, |more|) ==>
      t == Longer(s, |more|) && s.data[..] == Overlaid(old(s.data[..]), End(s), more)
    ensures !Fits(s, |more|) ==> fresh(t.data) && s.data[..] == old(s.data[..])
  {
    ghost var was := s.data[..];
    hide Overlaid;
    if s.len + |more| <= s.cap {
      Put(s.data, s.off + s.len, more);
      OverlaidEnd(was, s.off, End(s), more);
      t := s.(len := s.len + |more|);
      assert View(t) == s.data[..][t.off..End(t)];
    } else {
      var all := View(s) + more;
      var data := new CounterId[|all| + spare](i => if 0 <= i < |all| then all[i] else 0);
      t := Slice(data, 0, |all|, |all| + spare);
      assert View(t) == all;
    }
  }

  class CountReader {
    var counters: Slice

    constructor (counters: Slice)
      ensures this.counters == counters
    {
      this.counters := counters;
    }
  }

  /** `told` are the counters that unwrapping a reader of another kind brings up. */
  datatype Source = NoReader | Other(told: seq<CounterId>) | Counting(reader: CountReader)

  predicate Built(r: Source)
    reads if r.Counting? then {r.reader} else {}
  {
    r.Counting? ==> WellFormed(r.reader.counters)
  }

  /** NewReader. Without counters below, the reader keeps the very slice of the caller; a counting
      reader gets its list extended, in the array if that has room. */
  method NewReader(r: Source, counters: Slice, spare: nat) returns (c: Source)
    requires Built(r) && WellFormed(counters)
    modifies if r.Counting? then {r.reader, r.reader.counters.data} else {}
    ensures Built(c)
    ensures r.NoReader? || counters.len == 0 ==> c == r
    ensures r.Counting? && counters.len == 0 ==>
      r.reader.counters == old(r.reader.counters) && r.reader.counters.data[..] == old(r.reader.counters.data[..])
    ensures r.Other? && counters.len > 0 ==>
      && c.Counting? && fresh(c.reader)
      && (if r.told == [] then c.reader.counters == counters else fresh(c.reader.counters.data))
      && View(c.reader.counters) == r.told + View(counters)
    ensures r.Counting? && counters.len > 0 ==>
      var s, more := old(r.reader.counters), old(View(counters));
      && c == r && View(r.reader.counters) == old(View(r.reader.counters)) + more
      && (if Fits(s, |more|) then r.reader.counters == Longer(s, |more|) && s.data[..] == Overlaid(old(s.data[..]), End(s), more)
          else fresh(r.reader.counters.data) && s.data[..] == old(s.data[..]))
  {
    if r.NoReader? || counters.len == 0 {
      return r;
    }
    if r.Counting? {
      r.reader.counters := Append(r.reader.counters, View(counters), spare);
      return r;
    }
    var list := counters;
    if |r.told| > 0 {
      var extra := new CounterId[|r.told|](i requires 0 <= i < |r.told| => r.told[i]);
      assert extra[..] == r.told;
      list := Append(Slice(extra, 0, |r.told|, |r.told|), View(counters), spare);
    }
    var reader := new CountReader(list);
    c := Counting(reader);
  }

  /** What another slice of the array shows after `more` was written at `at` is what it showed before,
      exactly when the two ranges do not meet in a place with different counters. */
  lemma ShowsTheSameExactlyWhen(all: seq<CounterId>, at: nat, more: seq<CounterId>, off: nat, len: nat)
    requires at + |more| <= |all| && off + len <= |all|
    ensures Overlaid(all, at, more)[off..off + len] == all[off..off + len] <==>
      forall x :: at <= x < at + |more| && off <= x < off + len ==> all[x] == more[x - at]
  {
    var now := Overlaid(all, at, more);
    if now[off..off + len] == all[off..off + len] {
      forall x | at <= x < at + |more| && off <= x < off + len
        ensures all[x] == more[x - at]
      {
        assert now[x] == now[off..off + len][x - off] && all[x] == all[off..off + len][x - off];
      }
    }
  }

  // ---------------------------------------------------------------- when lists are values

  predicate Spare(s: Slice, x: nat) { End(s) <= x < s.off + s.cap }

  predicate Extent(s: Slice, x: nat) { s.off <= x < s.off + s.cap }

  /** No place that one of the two may append into belongs to the other. */
  ghost predicate Apart(s: Slice, t: Slice) {
    s.data == t.data ==> forall x: nat :: !(Spare(s, x) && Extent(t, x)) && !(Spare(t, x) && Extent(s, x))
  }

  ghost predicate AllApart(readers: seq<CountReader>)
    reads readers
  {
    && (forall i :: 0 <= i < |readers| ==> WellFormed(readers[i].counters))
    && (forall i, j :: 0 <= i < |readers| && 0 <= j < |readers| && i != j ==>
         readers[i] != readers[j] && Apart(readers[i].counters, readers[j].counters))
  }

  ghost function Arrays(readers: seq<CountReader>): set<array<CounterId>>
    reads readers
  {
    set i | 0 <= i < |readers| :: readers[i].counters.data
  }

  ghost function Lists(readers: seq<CountReader>): (ls: seq<seq<CounterId>>)
    requires AllApart(readers)
    reads readers, Arrays(readers)
    ensures |ls| == |readers|
  {
    seq(|readers|, i requires 0 <= i < |readers| reads readers, Arrays(readers) requires AllApart(readers) =>
      assert readers[i].counters.data in Arrays(readers); View(readers[i].counters))
  }

  /** The counters given to reader `k` by a run of extensions, each with the reader it is for. */
  function Given(ops: seq<(nat, seq<CounterId>)>, k: nat): seq<CounterId> {
    if ops == [] then []
    else Given(ops[..|ops| - 1], k) + if ops[|ops| - 1].0 == k then ops[|ops| - 1].1 else []
  }

  /** How `append` leaves slice and array. */
  ghost predicate Grown(s: Slice, all: seq<CounterId>, more: seq<CounterId>, s': Slice, now: seq<CounterId>) {
    && |all| == s.data.Length && WellFormed(s)
    && if Fits(s, |more|) then s' == Longer(s, |more|) && now == Overlaid(all, End(s), more)
       else s'.data != s.data && now == all
  }

  /** Seen from a slice that is apart. */
  lemma OthersKeep(s: Slice, all: seq<CounterId>, more: seq<CounterId>, s': Slice, now: seq<CounterId>, t: Slice)
    requires Grown(s, all, more, s', now) && WellFormed(t) && Apart(s, t) && (s'.data == t.data ==> s.data == t.data)
    ensures s.data == t.data ==> |now| == |all| && now[t.off..End(t)] == all[t.off..End(t)]
    ensures Apart(s', t) && Apart(t, s')
  {
    if Fits(s, |more|) && t.data == s.data {
      forall x | 0 <= x < |all|
        ensures End(s) <= x < End(s) + |more| && t.off <= x < End(t) ==> all[x] == more[x - End(s)]
      {
        assert !(Spare(s, x) && Extent(t, x));
      }
      ShowsTheSameExactlyWhen(all, End(s), more, t.off, t.len);
      assert forall x: nat :: (Spare(s', x) ==> Spare(s, x)) && (Extent(s', x) <==> Extent(s, x));
    }
  }

  /** NewReader on one of several counting readers, with a list of its own. */
  method Extend(reader: CountReader, more: seq<CounterId>, spare: nat)
    requires WellFormed(reader.counters)
    modifies reader, reader.counters.data
    ensures WellFormed(reader.counters) && View(reader.counters) == old(View(reader.counters)) + more
    ensures var s := old(reader.counters); Grown(s, old(s.data[..]), more, reader.counters, s.data[..])
    ensures reader.counters.data == old(reader.counters.data) || fresh(reader.counters.data)
  {
    hide Overlaid, Grown, View, Fits;
    ghost var s, all := reader.counters, reader.counters.data[..];
    OverlaidWithNothing(all, End(s));
    ViewIs(s);
    var data := new CounterId[|more|](i requires 0 <= i < |more| => more[i]);
    var list := Slice(data, 0, |more|, |more|);
    ViewIs(list);
    assert View(list) == more;
    ghost var front := View(s);
    assert more == [] ==> front + more == front;
    var c := NewReader(Counting(reader), list, spare);
    if more == [] {
      ViewIs(s);
      assert front == all[s.off..End(s)];
    }
    GrownFrom(s, all, more, reader.counters, s.data[..]);
  }

  lemma GrownFrom(s: Slice, all: seq<CounterId>, more: seq<CounterId>, s': Slice, now: seq<CounterId>)
    requires |all| == s.data.Length && WellFormed(s)
    requires
      if more == [] then s' == s && now == all == Overlaid(all, End(s), [])
      else if Fits(s, |more|) then s' == Longer(s, |more|) && now == Overlaid(all, End(s), more)
      else s'.data != s.data && now == all
    ensures Grown(s, all, more, s', now)
  {
  }

  /** Every list is what it was and what the reader was given. */
  ghost predicate HaveBeenGiven(before: seq<seq<CounterId>>, ops: seq<(nat, seq<CounterId>)>, now: seq<seq<CounterId>>) {
    |now| == |before| && forall k :: 0 <= k < |now| ==> now[k] == before[k] + Given(ops, k)
  }

  lemma GivenNothing(lists: seq<seq<CounterId>>)
    ensures HaveBeenGiven(lists, [], lists)
  {
  }

  lemma GivenMore(before: seq<seq<CounterId>>, ops: seq<(nat, seq<CounterId>)>, now: seq<seq<CounterId>>, k: nat, more: seq<CounterId>)
    requires HaveBeenGiven(before, ops, now) && k < |now|
    ensures HaveBeenGiven(before, ops + [(k, more)], now[k := now[k] + more])
  {
    assert (ops + [(k, more)])[..|ops|] == ops;
    forall j | 0 <= j < |now|
      ensures now[k := now[k] + more][j] == before[j] + Given(ops + [(k, more)], j)
    {
      assert before[k] + (Given(ops, k) + more) == (before[k] + Given(ops, k)) + more;
    }
  }

  /** The same among readers whose lists are apart. */
  method ExtendOne(readers: seq<CountReader>, k: nat, more: seq<CounterId>, spare: nat)
    requires AllApart(readers) && k < |readers|
    modifies readers, Arrays(readers)
    ensures AllApart(readers)
    ensures forall a :: a in Arrays(readers) ==> a in old(Arrays(readers)) || fresh(a)
    ensures Lists(readers) == old(Lists(readers))[k := old(Lists(readers))[k] + more]
  {
    hide Apart, Grown;
    ghost var s, all := readers[k].counters, readers[k].counters.data[..];
    Extend(readers[k], more, spare);
    forall j | 0 <= j < |readers| && j != k
      ensures View(readers[j].counters) == old(View(readers[j].counters))
      ensures Apart(readers[k].counters, readers[j].counters) && Apart(readers[j].counters, readers[k].counters)
    {
      var t := readers[j].counters;
      assert t == old(readers[j].counters);
      OthersKeep(s, all, more, readers[k].counters, s.data[..], t);
      if t.data == s.data {
        assert View(t) == s.data[..][t.off..End(t)] && old(View(t)) == all[t.off..End(t)];
      }
    }
  }

  /** Lists that are apart behave as values in every run: each reader has what it had and what it was
      given, in order, whatever was given to the others. */
  method ExtendAll(readers: seq<CountReader>, ops: seq<(nat, seq<CounterId>)>, spare: nat)
    requires AllApart(readers) && forall i :: 0 <= i < |ops| ==> ops[i].0 < |readers|
    modifies readers, Arrays(readers)
    ensures AllApart(readers)
    ensures HaveBeenGiven(old(Lists(readers)), ops, Lists(readers))
  {
    hide AllApart, Arrays, Lists, Given, View;
    ghost var arrays, lists := Arrays(readers), Lists(readers);
    GivenNothing(lists);
    for n := 0 to |ops|
      invariant AllApart(readers) && forall a :: a in Arrays(readers) ==> a in arrays || fresh(a)
      invariant HaveBeenGiven(lists, ops[..n], Lists(readers))
    {
      var (k, more) := ops[n];
      ghost var before := Lists(readers);
      ExtendOne(readers, k, more, spare);
      GivenMore(lists, ops[..n], before, k, more);
      assert ops[..n + 1] == ops[..n] + [ops[n]];
    }
    assert ops[..|ops|] == ops;
  }

  // ---------------------------------------------------------------- when they are not

  /** Appending `k` counters to `s` writes where `t` keeps its own. */
  ghost predicate Hits(s: Slice, k: nat, t: Slice) {
    s.data == t.data && Fits(s, k) && exists x: nat :: InRange(End(s), k, x) && InRange(t.off, t.len, x)
  }

  predicate InRange(from: nat, len: nat, x: nat) { from <= x < from + len }

  /** Two lists are apart exactly when no extension of one hits the other, as it is or extended in place. */
  lemma ApartExactlyWhen(s: Slice, t: Slice)
    requires WellFormed(s) && WellFormed(t)
    ensures Apart(s, t) <==> forall j: nat, k: nat ::
      && (Fits(t, j) ==> !Hits(s, k, Longer(t, j)))
      && (Fits(s, j) ==> !Hits(t, k, Longer(s, j)))
  {
    ReachesExactlyWhen(s, t);
    ReachesExactlyWhen(t, s);
  }

  /** Half of that. */
  lemma ReachesExactlyWhen(s: Slice, t: Slice)
    requires WellFormed(s) && WellFormed(t)
    ensures s.data == t.data && (exists x: nat :: Spare(s, x) && Extent(t, x)) <==>
      exists j: nat, k: nat :: Fits(t, j) && Hits(s, k, Longer(t, j))
  {
    if x: nat :| s.data == t.data && Spare(s, x) && Extent(t, x) {
      var j, k := if x < End(t) then 0 else x - End(t) + 1, x - End(s) + 1;
      assert InRange(End(s), k, x) && InRange(t.off, Longer(t, j).len, x);
      assert Fits(t, j) && Hits(s, k, Longer(t, j));
    }
    if j: nat, k: nat :| Fits(t, j) && Hits(s, k, Longer(t, j)) {
      var x: nat :| InRange(End(s), k, x) && InRange(t.off, Longer(t, j).len, x);
      assert Spare(s, x) && Extent(t, x);
    }
  }

  /** Where `more`, appended to `s`, meets the list `t`, it is what is there already. */
  ghost predicate Agrees(s: Slice, more: seq<CounterId>, t: Slice, all: seq<CounterId>)
    requires Hits(s, |more|, t) && End(t) <= |all|
  {
    forall x: nat :: InRange(End(s), |more|, x) && InRange(t.off, t.len, x) ==> all[x] == more[x - End(s)]
  }

  lemma HitShows(s: Slice, all: seq<CounterId>, more: seq<CounterId>, s': Slice, now: seq<CounterId>, t: Slice)
    requires Grown(s, all, more, s', now) && WellFormed(t)
    ensures s.data == t.data ==>
      && |now| == |all|
      && (now[t.off..End(t)] == all[t.off..End(t)] <==> (Hits(s, |more|, t) ==> Agrees(s, more, t, all)))
    ensures Hits(s, |more|, t) ==> s.data == t.data
  {
    if s.data == t.data && Fits(s, |more|) {
      ShowsTheSameExactlyWhen(all, End(s), more, t.off, t.len);
      if !Hits(s, |more|, t) {
        forall x | 0 <= x < |all|
          ensures End(s) <= x < End(s) + |more| && t.off <= x < End(t) ==> all[x] == more[x - End(s)]
        {
          assert !(InRange(End(s), |more|, x) && InRange(t.off, t.len, x));
        }
      }
    }
  }

  /** One extension, seen by any other counting reader: it keeps its list unless it is hit. */
  method ExtendBeside(reader: CountReader, other: CountReader, more: seq<CounterId>, spare: nat)
    requires reader != other && WellFormed(reader.counters) && WellFormed(other.counters)
    modifies reader, reader.counters.data
    ensures WellFormed(reader.counters) && View(reader.counters) == old(View(reader.counters)) + more
    ensures other.counters == old(other.counters)
    ensures var s, t := old(reader.counters), other.counters;
      View(t) == old(View(t)) <==> (Hits(s, |more|, t) ==> Agrees(s, more, t, old(s.data[..])))
  {
    hide Hits, Agrees, Grown;
    ghost var s, t, all := reader.counters, other.counters, reader.counters.data[..];
    Extend(reader, more, spare);
    HitShows(s, all, more, reader.counters, s.data[..], t);
    if s.data == t.data {
      assert View(t) == s.data[..][t.off..End(t)] && old(View(t)) == all[t.off..End(t)];
    }
  }

  /** Two readers made from one slice, and extended one after the other: the first keeps its extension
      exactly when the slice has no room for one of the two, or they agree where they meet. */
  method TwoReadersOfOneSlice(told: Slice, b: seq<CounterId>, c: seq<CounterId>, spare: nat)
    returns (first: CountReader, second: CountReader)
    requires WellFormed(told) && 0 < told.len
    modifies told.data
    ensures WellFormed(first.counters) && WellFormed(second.counters) && first != second
    ensures View(second.counters) == old(View(told)) + c
    ensures View(first.counters) == old(View(told)) + b <==>
      !Fits(told, |b|) || !Fits(told, |c|) || forall i :: 0 <= i < |b| && i < |c| ==> b[i] == c[i]
  {
    hide *;
    ghost var all := told.data[..];
    ViewIs(told);
    first, second := TwoReaders(told, spare);
    Extend(first, b, spare);
    ViewIs(told);
    SameSlice(told, all, b, c, first.counters, told.data[..]);
    ExtendBeside(second, first, c, spare);
  }

  method TwoReaders(told: Slice, spare: nat) returns (first: CountReader, second: CountReader)
    requires WellFormed(told) && 0 < told.len
    ensures fresh(first) && fresh(second) && first != second && first.counters == second.counters == told
  {
    var r := NewReader(Other([]), told, spare);
    var q := NewReader(Other([]), told, spare);
    return r.reader, q.reader;
  }

  lemma ViewIs(s: Slice)
    requires WellFormed(s)
    ensures End(s) <= s.data.Length && View(s) == s.data[..][s.off..End(s)]
  {
  }

  lemma SameSlice(told: Slice, was: seq<CounterId>, b: seq<CounterId>, c: seq<CounterId>, t: Slice, all: seq<CounterId>)
    requires Grown(told, was, b, t, all)
    ensures |all| == |was| && all[told.off..End(told)] == was[told.off..End(told)]
    ensures (Hits(told, |c|, t) ==> Agrees(told, c, t, all)) <==>
      !Fits(told, |b|) || !Fits(told, |c|) || forall i :: 0 <= i < |b| && i < |c| ==> b[i] == c[i]
  {
    if Fits(told, |b|) {
      OverlaidEnd(was, told.off, End(told), b);
      assert Fits(told, |c|) ==> all[End(told)..End(told) + |b|] == b;
      hide Grown, Overlaid;
      BothInTheRoom(told, b, c, t, all);
    }
  }

  lemma BothInTheRoom(told: Slice, b: seq<CounterId>, c: seq<CounterId>, t: Slice, all: seq<CounterId>)
    requires End(told) + |b| <= |all| && t == Longer(told, |b|) && all[End(told)..End(told) + |b|] == b
    ensures (Hits(told, |c|, t) ==> Agrees(told, c, t, all)) <==>
      !Fits(told, |c|) || forall i :: 0 <= i < |b| && i < |c| ==> b[i] == c[i]
  {
    var e := End(told);
    assert forall x :: e <= x < e + |b| ==> all[x] == all[e..e + |b|][x - e];
    if Hits(told, |c|, t) && Agrees(told, c, t, all) {
      forall i | 0 <= i < |b| && i < |c|
        ensures b[i] == c[i]
      {
        assert InRange(e, |c|, e + i) && InRange(t.off, t.len, e + i);
      }
    }
    if |b| > 0 && |c| > 0 {
      assert InRange(e, |c|, e) && InRange(t.off, t.len, e);
    }
  }
}
