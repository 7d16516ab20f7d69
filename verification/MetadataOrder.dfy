/** The order of metadata keys when attributes arrive in one call or in two. */
module MetadataOrder {
  import opened Prelude
  import opened Slices
  import opened Metadata
  import opened LogHandlers

  /** What is in `s` but not in `t`, in the order of `s`; and what is in both. */
  function Minus(s: seq<string>, t: seq<string>): seq<string> {
    if s == [] then [] else (if s[0] in t then [] else [s[0]]) + Minus(s[1..], t)
  }

  function Common(s: seq<string>, t: seq<string>): seq<string> {
    if s == [] then [] else (if s[0] in t then [s[0]] else []) + Common(s[1..], t)
  }

  ghost function Keys(attrs: seq<Attr>): (ks: seq<string>)
    ensures |ks| == |attrs| && forall i :: 0 <= i < |attrs| ==> ks[i] == attrs[i].key
  {
    if attrs == [] then [] else [attrs[0].key] + Keys(attrs[1..])
  }

  lemma {:induction false} MinusConcat(a: seq<string>, b: seq<string>, t: seq<string>)
    ensures Minus(a + b, t) == Minus(a, t) + Minus(b, t)
    ensures Common(a + b, t) == Common(a, t) + Common(b, t)
  {
    if a == [] {
      assert a + b == b;
    } else {
      assert (a + b)[1..] == a[1..] + b;
      MinusConcat(a[1..], b, t);
    }
  }

  lemma {:induction false} MinusTwice(s: seq<string>, t: seq<string>, u: seq<string>)
    ensures Minus(Minus(s, t), u) == Minus(s, t + u)
  {
    if s != [] {
      MinusTwice(s[1..], t, u);
      MinusConcat(if s[0] in t then [] else [s[0]], Minus(s[1..], t), u);
      assert s[0] in t + u <==> s[0] in t || s[0] in u;
      assert Minus([s[0]], u) == if s[0] in u then [] else [s[0]];
    }
  }

  lemma {:induction false} MinusSame(s: seq<string>, t: seq<string>, u: seq<string>)
    requires forall i :: 0 <= i < |s| ==> (s[i] in t <==> s[i] in u)
    ensures Minus(s, t) == Minus(s, u)
  {
    if s != [] {
      forall i | 0 <= i < |s[1..]|
        ensures s[1..][i] in t <==> s[1..][i] in u
      {
        assert s[1..][i] == s[i + 1];
      }
      MinusSame(s[1..], t, u);
    }
  }

  lemma {:induction false} MinusMembers(s: seq<string>, t: seq<string>, x: string)
    ensures x in Minus(s, t) <==> x in s && x !in t
    ensures x in Common(s, t) <==> x in s && x in t
  {
    if s != [] {
      MinusMembers(s[1..], t, x);
      assert s == [s[0]] + s[1..];
    }
  }

  lemma {:induction false} MinusExtremes(s: seq<string>, t: seq<string>)
    ensures (forall i :: 0 <= i < |s| ==> s[i] in t) ==> Common(s, t) == s && Minus(s, t) == []
    ensures (forall i :: 0 <= i < |s| ==> s[i] !in t) ==> Common(s, t) == [] && Minus(s, t) == s
    ensures |Minus(s, t)| + |Common(s, t)| == |s|
  {
    if s != [] {
      MinusExtremes(s[1..], t);
      if forall i :: 0 <= i < |s| ==> s[i] in t {
        assert forall i :: 0 <= i < |s[1..]| ==> s[1..][i] == s[i + 1];
        assert s == [s[0]] + s[1..];
      }
      if forall i :: 0 <= i < |s| ==> s[i] !in t {
        assert forall i :: 0 <= i < |s[1..]| ==> s[1..][i] == s[i + 1];
        assert s == [s[0]] + s[1..];
      }
    }
  }

  lemma SamePlace(a: seq<string>, q: seq<string>, p: seq<string>, b: seq<string>)
    requires a + q == p + b && |p| <= |a|
    ensures a == p + a[|p|..] && b == a[|p|..] + q
  {
    assert a == (a + q)[..|a|];
    assert p == (p + b)[..|p|] && b == (p + b)[|p|..];
  }

  lemma CommonTail(p: seq<string>, tail: seq<string>, b: seq<string>)
    requires forall i :: 0 <= i < |p| ==> p[i] !in b
    requires forall i :: 0 <= i < |tail| ==> tail[i] in b
    ensures Common(p + tail, b) == tail
  {
    MinusConcat(p, tail, b);
    MinusExtremes(p, b);
    MinusExtremes(tail, b);
    assert [] + tail == tail;
  }

  lemma NotIn(a: seq<string>, b: seq<string>)
    ensures forall i :: 0 <= i < |Minus(a, b)| ==> Minus(a, b)[i] !in b
    ensures |Minus(a, b)| <= |a|
  {
    forall i | 0 <= i < |Minus(a, b)|
      ensures Minus(a, b)[i] !in b
    {
      MinusMembers(a, b, Minus(a, b)[i]);
    }
    MinusExtremes(a, b);
  }

  /** Appending what is new of `b` to `a`, or `b` to what of `a` is not in it, makes no difference
      exactly when what they share ends the one and begins the other, in the same order. */
  lemma SharedInTheMiddle(a: seq<string>, b: seq<string>)
    ensures a + Minus(b, a) == Minus(a, b) + b <==>
      (a == Minus(a, b) + Common(a, b) && b == Common(a, b) + Minus(b, a))
  {
    hide *;
    var p, x, q := Minus(a, b), Common(a, b), Minus(b, a);
    if a == p + x && b == x + q {
      assert (p + x) + q == p + (x + q);
    }
    if a + q == p + b {
      NotIn(a, b);
      SamePlace(a, q, p, b);
      var tail := a[|p|..];
      forall i | 0 <= i < |tail|
        ensures tail[i] in b
      {
        assert (tail + q)[i] == tail[i];
      }
      CommonTail(p, tail, b);
    }
  }

  // ---------------------------------------------------------------- keys of a merge

  lemma KeyIn(attrs: seq<Attr>, k: string)
    ensures HasKey(attrs, KeyOf, k) <==> k in Keys(attrs)
  {
    if k in Keys(attrs) {
      var i :| 0 <= i < |attrs| && Keys(attrs)[i] == k;
      assert KeyOf(attrs[i]) == k;
    }
    if i :| 0 <= i < |attrs| && KeyOf(attrs[i]) == k {
      assert Keys(attrs)[i] == k;
    }
  }

  lemma {:induction false} NewcomersMinus(attrs: seq<Attr>, was: seq<Attr>)
    ensures Keys(Newcomers(attrs, was)) == Minus(Keys(attrs), Keys(was))
  {
    if attrs != [] {
      NewcomersMinus(attrs[1..], was);
      KeyIn(was, attrs[0].key);
      assert Keys(attrs)[1..] == Keys(attrs[1..]);
      var rest := Newcomers(attrs[1..], was);
      if HasKey(was, KeyOf, attrs[0].key) {
        assert [] + rest == rest;
      } else {
        assert ([attrs[0]] + rest)[1..] == rest;
      }
    }
  }

  lemma {:induction false} KeysConcat(a: seq<Attr>, b: seq<Attr>)
    ensures Keys(a + b) == Keys(a) + Keys(b)
  {
  }

  lemma KeysOverwritten(was: seq<Attr>, now: map<string, Attr>)
    requires forall c :: c in now ==> now[c].key == c
    ensures Keys(Overwritten(was, now)) == Keys(was)
  {
    forall i | 0 <= i < |was|
      ensures Overwritten(was, now)[i].key == was[i].key
    {
      OverwrittenAt(was, now, i);
    }
  }

  lemma MergedKeyOrder(was: seq<Attr>, attrs: seq<Attr>)
    ensures Keys(Merged(was, attrs)) == Keys(was) + Minus(Keys(LastOnes(attrs, KeyOf)), Keys(was))
  {
    NewcomersMinus(LastOnes(attrs, KeyOf), was);
    MapOfKeys(attrs);
    KeysOverwritten(was, MapOf(attrs));
    KeysConcat(Overwritten(was, MapOf(attrs)), Newcomers(LastOnes(attrs, KeyOf), was));
  }

  lemma FrontOnes(x: Attr, rest: seq<Attr>)
    ensures LastOnes([x] + rest, KeyOf) == (if HasKey(rest, KeyOf, x.key) then [] else [x]) + LastOnes(rest, KeyOf)
  {
    assert ([x] + rest)[1..] == rest;
  }

  lemma FrontNewcomer(x: Attr, rest: seq<Attr>, was: seq<Attr>)
    ensures Newcomers([x] + rest, was) == (if HasKey(was, KeyOf, x.key) then [] else [x]) + Newcomers(rest, was)
  {
    assert ([x] + rest)[1..] == rest;
  }

  lemma LastOnesStep(x: Attr, t: seq<Attr>, b: seq<Attr>)
    requires LastOnes(t + b, KeyOf) == Newcomers(LastOnes(t, KeyOf), b) + LastOnes(b, KeyOf)
    ensures LastOnes([x] + (t + b), KeyOf) == Newcomers(LastOnes([x] + t, KeyOf), b) + LastOnes(b, KeyOf)
  {
    hide *;
    var ones, rest, last := LastOnes(t, KeyOf), Newcomers(LastOnes(t, KeyOf), b), LastOnes(b, KeyOf);
    FrontOnes(x, t);
    FrontOnes(x, t + b);
    HasKeyConcat(t, b, x.key);
    FrontNewcomer(x, ones, b);
    Regroup([], ones, []);
    if HasKey(t, KeyOf, x.key) {
      Regroup([], rest, last);
      Regroup([], rest + last, last);
    } else if HasKey(b, KeyOf, x.key) {
      Regroup([], rest, last);
    } else {
      Regroup([x], rest, last);
    }
  }

  lemma {:induction false} LastOnesOfConcat(a: seq<Attr>, b: seq<Attr>)
    ensures LastOnes(a + b, KeyOf) == Newcomers(LastOnes(a, KeyOf), b) + LastOnes(b, KeyOf)
  {
    if a == [] {
      assert a + b == b;
      Regroup([], LastOnes(b, KeyOf), []);
    } else {
      hide *;
      LastOnesOfConcat(a[1..], b);
      assert a == [a[0]] + a[1..] && a + b == [a[0]] + (a[1..] + b);
      LastOnesStep(a[0], a[1..], b);
    }
  }

  /** The keys a call adds, in order. */
  ghost function Added(was: seq<Attr>, attrs: seq<Attr>): seq<string> {
    Minus(Keys(LastOnes(attrs, KeyOf)), Keys(was))
  }

  /** An added key is new among the keys of the second call just when it is new there. */
  lemma AddedKeys(was: seq<Attr>, b: seq<Attr>, k: string)
    ensures k in Keys(b) + Keys(was) <==> k in Keys(was) + Added(was, b)
  {
    KeyIn(b, k);
    KeyIn(LastOnes(b, KeyOf), k);
    LastOnesKeys(b, KeyOf, k);
    MinusMembers(Keys(LastOnes(b, KeyOf)), Keys(was), k);
  }

  lemma OneCallKeys(was: seq<Attr>, a: seq<Attr>, b: seq<Attr>)
    ensures Keys(Merged(was, a + b)) == Keys(was) + (Minus(Added(was, a), Added(was, b)) + Added(was, b))
  {
    var m, la, lb := Keys(was), Keys(LastOnes(a, KeyOf)), Keys(LastOnes(b, KeyOf));
    assert Added(was, a) == Minus(la, m) && Added(was, b) == Minus(lb, m);
    hide *;
    MergedKeyOrder(was, a + b);
    LastOnesOfConcat(a, b);
    NewcomersMinus(LastOnes(a, KeyOf), b);
    KeysConcat(Newcomers(LastOnes(a, KeyOf), b), LastOnes(b, KeyOf));
    MinusConcat(Minus(la, Keys(b)), lb, m);
    MinusTwice(la, Keys(b), m);
    MinusTwice(la, m, Added(was, b));
    forall i | 0 <= i < |la|
      ensures la[i] in Keys(b) + m <==> la[i] in m + Added(was, b)
    {
      AddedKeys(was, b, la[i]);
    }
    MinusSame(la, Keys(b) + m, m + Added(was, b));
  }

  lemma KeysAssoc(a: seq<string>, b: seq<string>, c: seq<string>)
    ensures (a + b) + c == a + (b + c)
  {
  }

  lemma TwoCallKeys(was: seq<Attr>, a: seq<Attr>, b: seq<Attr>)
    ensures Keys(Merged(Merged(was, a), b)) == Keys(was) + (Added(was, a) + Minus(Added(was, b), Added(was, a)))
  {
    var m, lb, x, y := Keys(was), Keys(LastOnes(b, KeyOf)), Added(was, a), Added(was, b);
    assert x == Minus(Keys(LastOnes(a, KeyOf)), m) && y == Minus(lb, m);
    hide *;
    MergedKeyOrder(was, a);
    MergedKeyOrder(Merged(was, a), b);
    MinusTwice(lb, m, x);
    KeysAssoc(m, x, Minus(y, x));
  }

  /** Lists with different keys are decided by their key order and their map. */
  lemma SameKeysSameMap(x: seq<Attr>, y: seq<Attr>)
    requires Unique(x) && Unique(y) && MapOf(x) == MapOf(y)
    ensures x == y <==> Keys(x) == Keys(y)
  {
    if Keys(x) == Keys(y) {
      forall i | 0 <= i < |x|
        ensures x[i] == y[i]
      {
        assert Keys(x)[i] == Keys(y)[i];
        UniqueMap(x, i);
        UniqueMap(y, i);
      }
    }
  }

  /** Splitting a call never changes a value. It keeps the order too, exactly when the new keys that
      both parts add come last in the first part and first in the second, in the same order. */
  lemma SplitCall(was: seq<Attr>, a: seq<Attr>, b: seq<Attr>)
    requires Unique(was)
    ensures MapOf(Merged(Merged(was, a), b)) == MapOf(Merged(was, a + b))
    ensures Merged(Merged(was, a), b) == Merged(was, a + b) <==>
      var x, y := Added(was, a), Added(was, b);
      x == Minus(x, y) + Common(x, y) && y == Common(x, y) + Minus(y, x)
  {
    hide *;
    MergeKeepsPositions(was, a);
    MergeKeepsPositions(was, a + b);
    MergeKeepsPositions(Merged(was, a), b);
    MergeIsWriting(was, a);
    MergeIsWriting(Merged(was, a), b);
    MergeIsWriting(was, a + b);
    WritingOn(a, b);
    assert MapOf(was) + (MapOf(a) + MapOf(b)) == (MapOf(was) + MapOf(a)) + MapOf(b);
    SameKeysSameMap(Merged(Merged(was, a), b), Merged(was, a + b));
    OneCallKeys(was, a, b);
    TwoCallKeys(was, a, b);
    var x, y := Added(was, a), Added(was, b);
    SameTail(Keys(was), x + Minus(y, x), Minus(x, y) + y);
    SharedInTheMiddle(x, y);
  }

  lemma SameTail(m: seq<string>, s: seq<string>, t: seq<string>)
    ensures m + s == m + t <==> s == t
  {
    if m + s == m + t {
      assert s == (m + s)[|m|..] && t == (m + t)[|m|..];
    }
  }

  lemma OnesOfThree(a1: Attr, a2: Attr, b: Attr)
    requires a1.key == a2.key != b.key
    ensures LastOnes([a1, b, a2], KeyOf) == [b, a2] && LastOnes([a1, b], KeyOf) == [a1, b] && LastOnes([a2], KeyOf) == [a2]
  {
    FrontOnes(a2, []);
    FrontOnes(b, []);
    FrontOnes(a1, [b]);
    FrontOnes(b, [a2]);
    FrontOnes(a1, [b, a2]);
    assert KeyOf([b, a2][1]) == a1.key;
    assert [a2] + [] == [a2] && [b] + [] == [b] && [a1] + [b] == [a1, b] && [b] + [a2] == [b, a2] && [a1] + [b, a2] == [a1, b, a2];
    assert [] + [b, a2] == [b, a2];
  }

  /** An order that changes: a, b, a in one call leaves b before a, in two calls a before b. */
  lemma SplitMayReorder(a1: Attr, a2: Attr, b: Attr)
    requires a1.key == a2.key != b.key
    ensures Merged([], [a1, b, a2]) == [b, a2]
    ensures Merged(Merged([], [a1, b]), [a2]) == [a2, b]
  {
    OnesOfThree(a1, a2, b);
    MergedIntoNothing([a1, b, a2]);
    MergedIntoNothing([a1, b]);
    var now := MapOf([a2]);
    UniqueMap([a2], 0);
    MapOfKeys([a2]);
    OverwrittenAt([a1, b], now, 0);
    OverwrittenAt([a1, b], now, 1);
    assert Overwritten([a1, b], now) == [a2, b];
    assert KeyOf([a1, b][0]) == a2.key;
    FrontNewcomer(a2, [], [a1, b]);
    assert [a2] + [] == [a2];
  }
}
