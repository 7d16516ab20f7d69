/** The console handler's attribute state: metadata, group prefix and preformatted attributes. */
module LogHandlers {
  import opened Prelude
  import opened Slices
  import opened Metadata

  // ---------------------------------------------------------------- merging metadata

  ghost function MapOf(attrs: seq<Attr>): map<string, Attr> { WriteAll(map[], attrs, KeyOf) }

  ghost predicate Unique(attrs: seq<Attr>) {
    forall i, j :: 0 <= i < j < |attrs| ==> attrs[i].key != attrs[j].key
  }

  /** What `now` says in place of each old attribute. */
  ghost function Overwritten(was: seq<Attr>, now: map<string, Attr>): (r: seq<Attr>)
    ensures |r| == |was|
  {
    if was == [] then []
    else [if was[0].key in now then now[was[0].key] else was[0]] + Overwritten(was[1..], now)
  }

  /** The attributes whose key is not in `was`. */
  ghost function Newcomers(attrs: seq<Attr>, was: seq<Attr>): seq<Attr> {
    if attrs == [] then []
    else (if HasKey(was, KeyOf, attrs[0].key) then [] else [attrs[0]]) + Newcomers(attrs[1..], was)
  }

  /** Old keys in place with the last value written, then new keys in the order of their last
      occurrence. */
  ghost function Merged(was: seq<Attr>, attrs: seq<Attr>): seq<Attr> {
    Overwritten(was, MapOf(attrs)) + Newcomers(LastOnes(attrs, KeyOf), was)
  }

  lemma {:induction false} OverwrittenAt(was: seq<Attr>, now: map<string, Attr>, i: nat)
    requires i < |was|
    ensures Overwritten(was, now)[i] == if was[i].key in now then now[was[i].key] else was[i]
  {
    if i > 0 {
      OverwrittenAt(was[1..], now, i - 1);
    }
  }

  lemma {:induction false} NewcomersConcat(a: seq<Attr>, b: seq<Attr>, was: seq<Attr>)
    ensures Newcomers(a + b, was) == Newcomers(a, was) + Newcomers(b, was)
  {
    if a == [] {
      assert a + b == b;
    } else {
      assert (a + b)[1..] == a[1..] + b;
      NewcomersConcat(a[1..], b, was);
    }
  }

  lemma LastOnesAreUnique(attrs: seq<Attr>)
    ensures Unique(LastOnes(attrs, KeyOf))
  {
    var ones := LastOnes(attrs, KeyOf);
    forall i, j | 0 <= i < j < |ones|
      ensures ones[i].key != ones[j].key
    {
      LastOnesInOrder(attrs, KeyOf, i, j);
    }
  }

  lemma {:induction false} NewcomersKeys(attrs: seq<Attr>, was: seq<Attr>, k: string)
    ensures HasKey(Newcomers(attrs, was), KeyOf, k) <==> HasKey(attrs, KeyOf, k) && !HasKey(was, KeyOf, k)
  {
    if attrs != [] {
      NewcomersKeys(attrs[1..], was, k);
      HasKeyCons(attrs, KeyOf, k);
      var rest := Newcomers(attrs[1..], was);
      if HasKey(was, KeyOf, attrs[0].key) {
        assert [] + rest == rest;
      } else {
        assert ([attrs[0]] + rest)[1..] == rest;
        HasKeyCons([attrs[0]] + rest, KeyOf, k);
      }
    }
  }

  lemma UniqueCons(attrs: seq<Attr>)
    requires attrs != []
    ensures Unique(attrs) <==> Unique(attrs[1..]) && !HasKey(attrs[1..], KeyOf, attrs[0].key)
  {
    var rest := attrs[1..];
    if Unique(attrs) {
      forall i | 0 <= i < |rest|
        ensures rest[i].key != attrs[0].key
      {
        assert rest[i] == attrs[i + 1];
      }
      forall i, j | 0 <= i < j < |rest|
        ensures rest[i].key != rest[j].key
      {
        assert rest[i] == attrs[i + 1] && rest[j] == attrs[j + 1];
      }
    }
    if Unique(rest) && !HasKey(rest, KeyOf, attrs[0].key) {
      forall i, j | 0 <= i < j < |attrs|
        ensures attrs[i].key != attrs[j].key
      {
        assert attrs[j] == rest[j - 1];
        if i > 0 {
          assert attrs[i] == rest[i - 1];
        } else {
          assert KeyOf(rest[j - 1]) != attrs[0].key;
        }
      }
    }
  }

  lemma {:induction false} NewcomersStayUnique(attrs: seq<Attr>, was: seq<Attr>)
    requires Unique(attrs)
    ensures Unique(Newcomers(attrs, was))
  {
    if attrs != [] {
      UniqueCons(attrs);
      NewcomersStayUnique(attrs[1..], was);
      var rest := Newcomers(attrs[1..], was);
      if HasKey(was, KeyOf, attrs[0].key) {
        assert [] + rest == rest;
      } else {
        assert ([attrs[0]] + rest)[1..] == rest;
        NewcomersKeys(attrs[1..], was, attrs[0].key);
        UniqueCons([attrs[0]] + rest);
      }
    }
  }

  lemma MapOfKeys(attrs: seq<Attr>)
    ensures forall k :: k in MapOf(attrs) <==> HasKey(attrs, KeyOf, k)
    ensures forall k :: k in MapOf(attrs) ==> MapOf(attrs)[k].key == k
  {
    forall k
      ensures k in MapOf(attrs) <==> HasKey(attrs, KeyOf, k)
      ensures k in MapOf(attrs) ==> MapOf(attrs)[k].key == k
    {
      WriteAllKeys(attrs, KeyOf, k);
    }
  }

  /** Merging keeps the keys different and the old keys where they were. */
  lemma MergeKeepsPositions(was: seq<Attr>, attrs: seq<Attr>)
    requires Unique(was)
    ensures Unique(Merged(was, attrs))
    ensures |was| <= |Merged(was, attrs)|
    ensures forall i :: 0 <= i < |was| ==> Merged(was, attrs)[i].key == was[i].key
  {
    var front, news := Overwritten(was, MapOf(attrs)), Newcomers(LastOnes(attrs, KeyOf), was);
    MapOfKeys(attrs);
    LastOnesAreUnique(attrs);
    NewcomersStayUnique(LastOnes(attrs, KeyOf), was);
    forall i | 0 <= i < |was|
      ensures front[i].key == was[i].key
    {
      OverwrittenAt(was, MapOf(attrs), i);
    }
    forall i, j | 0 <= i < j < |front + news|
      ensures (front + news)[i].key != (front + news)[j].key
    {
      if i < |front| <= j {
        var k := news[j - |front|].key;
        assert KeyOf(news[j - |front|]) == k;
        NewcomersKeys(LastOnes(attrs, KeyOf), was, k);
        assert KeyOf(was[i]) == was[i].key;
      }
    }
  }

  lemma {:induction false} UniqueMap(attrs: seq<Attr>, i: nat)
    requires Unique(attrs) && i < |attrs|
    ensures attrs[i].key in MapOf(attrs) && MapOf(attrs)[attrs[i].key] == attrs[i]
  {
    assert KeyOf(attrs[i]) == attrs[i].key;
    WriteAllKeys(attrs, KeyOf, attrs[i].key);
    assert KeyOf(attrs[LastIndex(attrs, KeyOf, attrs[i].key)]) == attrs[i].key;
  }

  /** As a map, merging is writing: every key holds its last value. */
  lemma MergeIsWriting(was: seq<Attr>, attrs: seq<Attr>)
    requires Unique(was)
    ensures MapOf(Merged(was, attrs)) == MapOf(was + attrs) == MapOf(was) + MapOf(attrs)
  {
    hide *;
    WritingOn(was, attrs);
    MapOfKeys(Merged(was, attrs));
    MapOfKeys(was);
    MapOfKeys(attrs);
    forall k
      ensures k in MapOf(Merged(was, attrs)) <==> k in MapOf(was) || k in MapOf(attrs)
      ensures k in MapOf(Merged(was, attrs)) ==> MapOf(Merged(was, attrs))[k] == (MapOf(was) + MapOf(attrs))[k]
    {
      MergedKeys(was, attrs, k);
      if HasKey(was, KeyOf, k) {
        MergedOldValue(was, attrs, k);
      } else if HasKey(attrs, KeyOf, k) {
        MergedNewValue(was, attrs, k);
      }
    }
  }

  lemma WritingOn(was: seq<Attr>, attrs: seq<Attr>)
    ensures MapOf(was + attrs) == MapOf(was) + MapOf(attrs)
  {
    WriteAllAgain(map[], was, attrs, KeyOf);
    WriteAllOverrides(MapOf(was), attrs, KeyOf);
  }

  lemma HasKeyConcat(a: seq<Attr>, b: seq<Attr>, k: string)
    ensures HasKey(a + b, KeyOf, k) <==> HasKey(a, KeyOf, k) || HasKey(b, KeyOf, k)
  {
    if i :| 0 <= i < |a| && KeyOf(a[i]) == k {
      assert (a + b)[i] == a[i];
    }
    if j :| 0 <= j < |b| && KeyOf(b[j]) == k {
      assert (a + b)[|a| + j] == b[j];
    }
  }

  lemma {:induction false} OverwrittenKeys(was: seq<Attr>, now: map<string, Attr>, k: string)
    requires forall c :: c in now ==> now[c].key == c
    ensures HasKey(Overwritten(was, now), KeyOf, k) <==> HasKey(was, KeyOf, k)
  {
    if was != [] {
      var over := Overwritten(was, now);
      OverwrittenKeys(was[1..], now, k);
      HasKeyCons(was, KeyOf, k);
      HasKeyCons(over, KeyOf, k);
      assert over[1..] == Overwritten(was[1..], now);
    }
  }

  lemma MergedKeys(was: seq<Attr>, attrs: seq<Attr>, k: string)
    ensures HasKey(Merged(was, attrs), KeyOf, k) <==> HasKey(was, KeyOf, k) || HasKey(attrs, KeyOf, k)
  {
    MapOfKeys(attrs);
    OverwrittenKeys(was, MapOf(attrs), k);
    NewcomersKeys(LastOnes(attrs, KeyOf), was, k);
    LastOnesKeys(attrs, KeyOf, k);
    HasKeyConcat(Overwritten(was, MapOf(attrs)), Newcomers(LastOnes(attrs, KeyOf), was), k);
  }

  lemma MergedOldValue(was: seq<Attr>, attrs: seq<Attr>, k: string)
    requires Unique(was) && HasKey(was, KeyOf, k)
    ensures k in MapOf(was) && k in MapOf(Merged(was, attrs))
    ensures MapOf(Merged(was, attrs))[k] == if k in MapOf(attrs) then MapOf(attrs)[k] else MapOf(was)[k]
  {
    MergeKeepsPositions(was, attrs);
    var i :| 0 <= i < |was| && KeyOf(was[i]) == k;
    OverwrittenAt(was, MapOf(attrs), i);
    UniqueMap(was, i);
    UniqueMap(Merged(was, attrs), i);
  }

  lemma MergedNewValue(was: seq<Attr>, attrs: seq<Attr>, k: string)
    requires Unique(was) && !HasKey(was, KeyOf, k) && HasKey(attrs, KeyOf, k)
    ensures k in MapOf(attrs) && k in MapOf(Merged(was, attrs))
    ensures MapOf(Merged(was, attrs))[k] == MapOf(attrs)[k]
  {
    var ones := LastOnes(attrs, KeyOf);
    var news := Newcomers(ones, was);
    NewcomersKeys(ones, was, k);
    LastOnesKeys(attrs, KeyOf, k);
    MergeKeepsPositions(was, attrs);
    var j :| 0 <= j < |news| && KeyOf(news[j]) == k;
    assert Merged(was, attrs)[|was| + j] == news[j];
    UniqueMap(Merged(was, attrs), |was| + j);
    NewcomersFrom(ones, was, j);
    var i :| 0 <= i < |ones| && ones[i] == news[j];
    LastOnesAreUnique(attrs);
    UniqueMap(ones, i);
    LastOnesWriteTheSame(attrs, KeyOf);
  }

  lemma {:induction false} NewcomersFrom(attrs: seq<Attr>, was: seq<Attr>, j: nat)
    requires j < |Newcomers(attrs, was)|
    ensures exists i :: 0 <= i < |attrs| && attrs[i] == Newcomers(attrs, was)[j]
  {
    var news, rest := Newcomers(attrs, was), Newcomers(attrs[1..], was);
    if !HasKey(was, KeyOf, attrs[0].key) && j == 0 {
      assert attrs[0] == news[0];
    } else {
      var j' := if HasKey(was, KeyOf, attrs[0].key) then j else j - 1;
      assert news[j] == rest[j'];
      NewcomersFrom(attrs[1..], was, j');
      var i :| 0 <= i < |attrs[1..]| && attrs[1..][i] == rest[j'];
      assert attrs[i + 1] == attrs[1..][i];
    }
  }

  lemma NewcomersCons(attrs: seq<Attr>, was: seq<Attr>)
    requires attrs != []
    ensures var news, rest := Newcomers(attrs, was), Newcomers(attrs[1..], was);
      if HasKey(was, KeyOf, attrs[0].key) then news == rest
      else |news| == 1 + |rest| && news[0] == attrs[0] && forall k :: 0 < k < |news| ==> news[k] == rest[k - 1]
  {
  }

  lemma NewcomersOfNothing(was: seq<Attr>)
    ensures Newcomers([], was) == []
  {
  }

  /** Newcomers keep their order. */
  lemma {:induction false} NewcomersInOrder(attrs: seq<Attr>, was: seq<Attr>, i: nat, j: nat)
    returns (from: nat, to: nat)
    requires i < j < |Newcomers(attrs, was)|
    ensures from < to < |attrs| && attrs[from] == Newcomers(attrs, was)[i] && attrs[to] == Newcomers(attrs, was)[j]
  {
    hide *;
    NewcomersOfNothing(was);
    NewcomersCons(attrs, was);
    if HasKey(was, KeyOf, attrs[0].key) {
      from, to := NewcomersInOrder(attrs[1..], was, i, j);
    } else if i == 0 {
      NewcomersFrom(attrs[1..], was, j - 1);
      var k :| 0 <= k < |attrs[1..]| && attrs[1..][k] == Newcomers(attrs[1..], was)[j - 1];
      return 0, k + 1;
    } else {
      from, to := NewcomersInOrder(attrs[1..], was, i - 1, j - 1);
    }
    from, to := from + 1, to + 1;
  }

  /** The keys that a merge adds, in the order of their last occurrences. */
  lemma MergeAddsInOrder(was: seq<Attr>, attrs: seq<Attr>, i: nat, j: nat)
    requires |was| <= i < j < |Merged(was, attrs)|
    ensures var x, y := Merged(was, attrs)[i].key, Merged(was, attrs)[j].key;
      && HasKey(attrs, KeyOf, x) && HasKey(attrs, KeyOf, y)
      && LastIndex(attrs, KeyOf, x) < LastIndex(attrs, KeyOf, y)
  {
    var ones := LastOnes(attrs, KeyOf);
    var from, to := NewcomersInOrder(ones, was, i - |was|, j - |was|);
    LastOnesInOrder(attrs, KeyOf, from, to);
    assert KeyOf(ones[from]) == ones[from].key && KeyOf(ones[to]) == ones[to].key;
  }

  lemma MergeAdds(was: seq<Attr>, attrs: seq<Attr>, i: nat)
    requires |was| <= i < |Merged(was, attrs)|
    ensures HasKey(attrs, KeyOf, Merged(was, attrs)[i].key) && !HasKey(was, KeyOf, Merged(was, attrs)[i].key)
  {
    var ones := LastOnes(attrs, KeyOf);
    var k := Merged(was, attrs)[i].key;
    assert KeyOf(Newcomers(ones, was)[i - |was|]) == k;
    NewcomersKeys(ones, was, k);
    LastOnesKeys(attrs, KeyOf, k);
  }

  lemma {:induction false} AllNewcomers(attrs: seq<Attr>)
    ensures Newcomers(attrs, []) == attrs
  {
    if attrs != [] {
      AllNewcomers(attrs[1..]);
    }
  }

  lemma MergedIntoNothing(attrs: seq<Attr>)
    ensures Merged([], attrs) == LastOnes(attrs, KeyOf)
  {
    AllNewcomers(LastOnes(attrs, KeyOf));
    assert [] + LastOnes(attrs, KeyOf) == LastOnes(attrs, KeyOf);
  }

  // ---------------------------------------------------------------- merging one by one

  /** The merge of attributes with different keys, as far as it has come. */
  ghost function SoFar(was: seq<Attr>, seen: seq<Attr>): seq<Attr> {
    Overwritten(was, MapOf(seen)) + Newcomers(seen, was)
  }

  lemma NothingYet(was: seq<Attr>)
    ensures SoFar(was, []) == was
  {
    forall i | 0 <= i < |was|
      ensures Overwritten(was, map[])[i] == was[i]
    {
      OverwrittenAt(was, map[], i);
    }
    assert Overwritten(was, map[]) == was;
  }

  lemma MapOfOneMore(seen: seq<Attr>, attr: Attr)
    ensures MapOf(seen + [attr]) == MapOf(seen)[attr.key := attr]
  {
    WriteAllAgain(map[], seen, [attr], KeyOf);
  }

  lemma NewcomersOneMore(seen: seq<Attr>, attr: Attr, was: seq<Attr>)
    ensures Newcomers(seen + [attr], was) == Newcomers(seen, was) + if HasKey(was, KeyOf, attr.key) then [] else [attr]
  {
    NewcomersConcat(seen, [attr], was);
    assert Newcomers([attr], was) == if HasKey(was, KeyOf, attr.key) then [] else [attr];
  }

  lemma OverwrittenOneMore(was: seq<Attr>, now: map<string, Attr>, attr: Attr)
    ensures forall i :: 0 <= i < |was| ==>
      Overwritten(was, now[attr.key := attr])[i] == if was[i].key == attr.key then attr else Overwritten(was, now)[i]
  {
    forall i | 0 <= i < |was|
      ensures Overwritten(was, now[attr.key := attr])[i] == if was[i].key == attr.key then attr else Overwritten(was, now)[i]
    {
      OverwrittenAt(was, now, i);
      OverwrittenAt(was, now[attr.key := attr], i);
    }
  }

  /** An attribute whose key is at position `k` replaces what is there. */
  lemma MergeReplaces(was: seq<Attr>, seen: seq<Attr>, attr: Attr, k: nat)
    requires Unique(was) && k < |was| && was[k].key == attr.key
    ensures k < |SoFar(was, seen)| && SoFar(was, seen + [attr]) == SoFar(was, seen)[k := attr]
  {
    MapOfOneMore(seen, attr);
    NewcomersOneMore(seen, attr, was);
    OverwrittenOneMore(was, MapOf(seen), attr);
    assert KeyOf(was[k]) == attr.key;
    var before, after := Overwritten(was, MapOf(seen)), Overwritten(was, MapOf(seen + [attr]));
    assert after == before[k := attr];
    assert Newcomers(seen + [attr], was) == Newcomers(seen, was);
  }

  lemma MergeAppends(was: seq<Attr>, seen: seq<Attr>, attr: Attr)
    requires !HasKey(was, KeyOf, attr.key)
    ensures SoFar(was, seen + [attr]) == SoFar(was, seen) + [attr]
  {
    MapOfOneMore(seen, attr);
    NewcomersOneMore(seen, attr, was);
    OverwrittenOneMore(was, MapOf(seen), attr);
    forall i | 0 <= i < |was|
      ensures was[i].key != attr.key
    {
      assert KeyOf(was[i]) == was[i].key;
    }
    assert Overwritten(was, MapOf(seen + [attr])) == Overwritten(was, MapOf(seen));
  }

  lemma MergeComplete(was: seq<Attr>, attrs: seq<Attr>)
    ensures SoFar(was, LastOnes(attrs, KeyOf)) == Merged(was, attrs)
  {
    LastOnesWriteTheSame(attrs, KeyOf);
  }
}
