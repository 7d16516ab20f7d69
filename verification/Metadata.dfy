/** Log attributes, and the attributes that a key prefix marks as metadata. */
module Metadata {
  import opened Prelude

  /** `text` is what the attribute's value prints as. */
  datatype Attr = Attr(key: string, text: string)

  const PREFIX: string := "_builtin.enhancements.metadata"
  const SPLITTER: char := ':'

  function KeyOf(a: Attr): string { a.key }

  /** The position of the first splitter, or the length if there is none. */
  function FirstSplitter(s: string): (k: nat)
    ensures k <= |s| && (k < |s| ==> s[k] == SPLITTER) && forall i :: 0 <= i < k ==> s[i] != SPLITTER
  {
    if s == [] || s[0] == SPLITTER then 0 else 1 + FirstSplitter(s[1..])
  }

  /** strings.SplitN(s, ":", 2). */
  function SplitInTwo(s: string): seq<string> {
    var k := FirstSplitter(s);
    if k == |s| then [s] else [s[..k], s[k + 1..]]
  }

  function NewMetadata(name: string, text: string): Attr { Attr(PREFIX + [SPLITTER] + name, text) }

  /** The attribute carries the mark. */
  predicate IsMeta(a: Attr) {
    var parts := SplitInTwo(a.key);
    |parts| == 2 && parts[0] == PREFIX
  }

  function Stripped(a: Attr): Attr
    requires IsMeta(a)
  {
    a.(key := SplitInTwo(a.key)[1])
  }

  lemma FirstSplitterIs(s: string, k: nat)
    requires k < |s| && s[k] == SPLITTER && forall i :: 0 <= i < k ==> s[i] != SPLITTER
    ensures FirstSplitter(s) == k
  {
    var f := FirstSplitter(s);
    assert f == k;
  }

  lemma PrefixHasNoSplitter(i: nat)
    requires i < |PREFIX|
    ensures PREFIX[i] != SPLITTER
  {
  }

  /** The key of a metadata attribute splits into the mark and the name. */
  lemma MarkedKey(name: string)
    ensures SplitInTwo(PREFIX + [SPLITTER] + name) == [PREFIX, name]
  {
    var s := PREFIX + [SPLITTER] + name;
    forall i | 0 <= i < |PREFIX|
      ensures s[i] != SPLITTER
    {
      PrefixHasNoSplitter(i);
    }
    FirstSplitterIs(s, |PREFIX|);
    assert s[..|PREFIX|] == PREFIX && s[|PREFIX| + 1..] == name;
  }

  lemma SplitAndBack(s: string)
    requires |SplitInTwo(s)| == 2
    ensures s == SplitInTwo(s)[0] + [SPLITTER] + SplitInTwo(s)[1]
  {
  }

  /** The key that is put on the wire. */
  lemma MetadataKey(name: string, text: string)
    ensures NewMetadata(name, text) == Attr("_builtin.enhancements.metadata:" + name, text)
  {
    assert PREFIX + [SPLITTER] == "_builtin.enhancements.metadata:";
  }

  /** Metadata is exactly what NewMetadata makes, and the name survives whatever it contains. */
  lemma MetadataRoundTrip(a: Attr)
    ensures IsMeta(a) <==> exists name :: a == NewMetadata(name, a.text)
    ensures forall name :: a == NewMetadata(name, a.text) ==> IsMeta(a) && Stripped(a) == Attr(name, a.text)
  {
    hide SplitInTwo, PREFIX;
    forall name | a == NewMetadata(name, a.text)
      ensures IsMeta(a) && Stripped(a) == Attr(name, a.text)
    {
      MarkedKey(name);
    }
    if IsMeta(a) {
      SplitAndBack(a.key);
      assert a == NewMetadata(SplitInTwo(a.key)[1], a.text);
    }
  }

  // ---------------------------------------------------------------- splitting

  function MetaOf(attrs: seq<Attr>): seq<Attr> {
    if attrs == [] then []
    else (if IsMeta(attrs[0]) then [Stripped(attrs[0])] else []) + MetaOf(attrs[1..])
  }

  function ExtraOf(attrs: seq<Attr>): seq<Attr> {
    if attrs == [] then []
    else (if IsMeta(attrs[0]) then [] else [attrs[0]]) + ExtraOf(attrs[1..])
  }

  lemma {:induction false} SplitConcat(a: seq<Attr>, b: seq<Attr>)
    ensures MetaOf(a + b) == MetaOf(a) + MetaOf(b) && ExtraOf(a + b) == ExtraOf(a) + ExtraOf(b)
  {
    if a == [] {
      assert a + b == b;
      assert [] + MetaOf(b) == MetaOf(b) && [] + ExtraOf(b) == ExtraOf(b);
    } else {
      hide *;
      var x, t := a[0], a[1..];
      SplitConcat(t, b);
      assert a == [x] + t && a + b == [x] + (t + b);
      SplitCons(x, t);
      SplitCons(x, t + b);
      Regroup(if IsMeta(x) then [Stripped(x)] else [], MetaOf(t), MetaOf(b));
      Regroup(if IsMeta(x) then [] else [x], ExtraOf(t), ExtraOf(b));
    }
  }

  lemma SplitCons(x: Attr, rest: seq<Attr>)
    ensures MetaOf([x] + rest) == (if IsMeta(x) then [Stripped(x)] else []) + MetaOf(rest)
    ensures ExtraOf([x] + rest) == (if IsMeta(x) then [] else [x]) + ExtraOf(rest)
  {
    assert ([x] + rest)[1..] == rest;
  }

  lemma Regroup(front: seq<Attr>, rest: seq<Attr>, last: seq<Attr>)
    ensures front + (rest + last) == (front + rest) + last
    ensures [] + rest == rest
  {
  }

  lemma SplitNothing()
    ensures MetaOf([]) == [] && ExtraOf([]) == []
  {
  }

  lemma SplitOneMore(attrs: seq<Attr>, a: Attr)
    ensures MetaOf(attrs + [a]) == MetaOf(attrs) + (if IsMeta(a) then [Stripped(a)] else [])
    ensures ExtraOf(attrs + [a]) == ExtraOf(attrs) + (if IsMeta(a) then [] else [a])
  {
    SplitConcat(attrs, [a]);
    assert MetaOf([a]) == (if IsMeta(a) then [Stripped(a)] else []) + [];
    assert ExtraOf([a]) == (if IsMeta(a) then [] else [a]) + [];
  }

  /** What the loop tests, and what it keeps. */
  lemma MetaByParts(a: Attr)
    ensures |SplitInTwo(a.key)| == 1 || |SplitInTwo(a.key)| == 2
    ensures IsMeta(a) <==> |SplitInTwo(a.key)| == 2 && SplitInTwo(a.key)[0] == PREFIX
    ensures IsMeta(a) ==> Stripped(a) == a.(key := SplitInTwo(a.key)[1])
  {
  }

  /** Weaves two lists back together; `marks` says which one comes next. */
  function Weave(marks: seq<bool>, meta: seq<Attr>, extra: seq<Attr>): seq<Attr> {
    if marks == [] then []
    else if marks[0] then
      if meta == [] then [] else [NewMetadata(meta[0].key, meta[0].text)] + Weave(marks[1..], meta[1..], extra)
    else if extra == [] then []
    else [extra[0]] + Weave(marks[1..], meta, extra[1..])
  }

  function Marks(attrs: seq<Attr>): seq<bool> {
    if attrs == [] then [] else [IsMeta(attrs[0])] + Marks(attrs[1..])
  }

  /** Splitting is a stable partition: nothing is lost, repeated or reordered within its part. */
  lemma {:induction false} SplitIsAStablePartition(attrs: seq<Attr>)
    ensures Weave(Marks(attrs), MetaOf(attrs), ExtraOf(attrs)) == attrs
    ensures |MetaOf(attrs)| + |ExtraOf(attrs)| == |attrs|
  {
    if attrs != [] {
      SplitIsAStablePartition(attrs[1..]);
      MetadataRoundTrip(attrs[0]);
      assert Marks(attrs)[1..] == Marks(attrs[1..]);
      if IsMeta(attrs[0]) {
        assert MetaOf(attrs)[1..] == MetaOf(attrs[1..]);
        assert ExtraOf(attrs) == ExtraOf(attrs[1..]);
      } else {
        assert ExtraOf(attrs)[1..] == ExtraOf(attrs[1..]);
        assert MetaOf(attrs) == MetaOf(attrs[1..]);
      }
      assert attrs == [attrs[0]] + attrs[1..];
    }
  }

  method SplitMetadata(attrs: seq<Attr>) returns (meta: seq<Attr>, extra: seq<Attr>)
    ensures meta == MetaOf(attrs) && extra == ExtraOf(attrs)
  {
    hide *;
    meta, extra := [], [];
    SplitNothing();
    assert attrs[..0] == [];
    for i := 0 to |attrs|
      invariant meta == MetaOf(attrs[..i]) && extra == ExtraOf(attrs[..i])
    {
      assert attrs[..i + 1] == attrs[..i] + [attrs[i]];
      SplitOneMore(attrs[..i], attrs[i]);
      MetaByParts(attrs[i]);
      var splitN := SplitInTwo(attrs[i].key);
      if |splitN| < 2 || splitN[0] != PREFIX {
        extra := extra + [attrs[i]];
        continue;
      }
      meta := meta + [attrs[i].(key := splitN[1])];
    }
    assert attrs[..|attrs|] == attrs;
  }
}
