/** ConsoleHandler: handlers derived from handlers by WithAttrs and WithGroup. */
module ConsoleHandlers {
  import opened Prelude
  import opened Slices
  import opened Metadata
  import opened LogHandlers

  // ---------------------------------------------------------------- joining

  /** strings.Join and bytes.Join. */
  function Join(pieces: seq<string>, sep: string): string {
    if pieces == [] then ""
    else if |pieces| == 1 then pieces[0]
    else pieces[0] + (sep + Join(pieces[1..], sep))
  }

  lemma {:induction false} JoinConcat(a: seq<string>, b: seq<string>, sep: string)
    requires a != [] && b != []
    ensures Join(a + b, sep) == Join(a, sep) + (sep + Join(b, sep))
  {
    if |a| == 1 {
      assert (a + b)[1..] == b;
    } else {
      assert (a + b)[1..] == a[1..] + b;
      JoinConcat(a[1..], b, sep);
      var x, y, z := a[0], Join(a[1..], sep), sep + Join(b, sep);
      assert x + (sep + (y + z)) == (x + (sep + y)) + z;
    }
  }

  /** Joining in two steps is joining once. */
  lemma JoinAgain(a: seq<string>, b: seq<string>, sep: string)
    requires a != []
    ensures Join([Join(a, sep)] + b, sep) == Join(a + b, sep)
  {
    if b == [] {
      assert [Join(a, sep)] + b == [Join(a, sep)] && a + b == a;
    } else {
      JoinConcat(a, b, sep);
      JoinConcat([Join(a, sep)], b, sep);
    }
  }

  ghost predicate NoneEmpty(pieces: seq<string>) {
    forall i :: 0 <= i < |pieces| ==> pieces[i] != ""
  }

  lemma JoinIsEmpty(pieces: seq<string>, sep: string)
    requires NoneEmpty(pieces)
    ensures Join(pieces, sep) == "" <==> pieces == []
  {
  }

  /** An already joined prefix, left out when it is empty, is the prefix itself. */
  lemma JoinOnto(done: seq<string>, more: seq<string>, sep: string)
    requires NoneEmpty(done)
    ensures Join((if Join(done, sep) == "" then [] else [Join(done, sep)]) + more, sep) == Join(done + more, sep)
  {
    JoinIsEmpty(done, sep);
    if done == [] {
      assert [] + more == more;
    } else {
      JoinAgain(done, more, sep);
    }
  }

  // ---------------------------------------------------------------- handlers as values

  datatype State = State(metadata: seq<Attr>, group: string, formatted: string)

  /** slog's key=value, under the group prefix. */
  function Rendered(group: string, a: Attr): (r: string)
    ensures r != ""
  {
    (if group == "" then a.key else Join([group, a.key], ".")) + "=" + a.text
  }

  function RenderAll(group: string, attrs: seq<Attr>): (r: seq<string>)
    ensures |r| == |attrs| && forall i :: 0 <= i < |r| ==> r[i] == Rendered(group, attrs[i])
  {
    if attrs == [] then [] else [Rendered(group, attrs[0])] + RenderAll(group, attrs[1..])
  }

  function Formatted(before: string, group: string, attrs: seq<Attr>): string {
    Join((if before == "" then [] else [before]) + RenderAll(group, attrs), " ")
  }

  function Grouped(group: string, name: string): string {
    if name == "" then group else if group == "" then name else Join([group, name], ".")
  }

  ghost function PlusAttrs(s: State, attrs: seq<Attr>): State {
    State(Merged(s.metadata, MetaOf(attrs)), s.group, Formatted(s.formatted, s.group, ExtraOf(attrs)))
  }

  datatype Op = Attrs(attrs: seq<Attr>) | Group(name: string)

  ghost function Perform(s: State, op: Op): State {
    match op
    case Attrs(attrs) => PlusAttrs(s, attrs)
    case Group(name) => s.(group := Grouped(s.group, name))
  }

  ghost function After(s: State, ops: seq<Op>): State {
    if ops == [] then s else Perform(After(s, ops[..|ops| - 1]), ops[|ops| - 1])
  }

  const FRESH := State([], "", "")

  // ---------------------------------------------------------------- what a run leaves

  /** The groups opened by a run. */
  function Groups(ops: seq<Op>): seq<string> {
    if ops == [] then []
    else
      var op := ops[|ops| - 1];
      Groups(ops[..|ops| - 1]) + if op.Group? && op.name != "" then [op.name] else []
  }

  /** An attribute keyed by the groups opened before it. */
  function Line(groups: seq<string>, a: Attr): string { Join(groups + [a.key], ".") + "=" + a.text }

  function Lines(groups: seq<string>, attrs: seq<Attr>): (r: seq<string>)
    ensures |r| == |attrs| && forall i :: 0 <= i < |r| ==> r[i] == Line(groups, attrs[i])
  {
    if attrs == [] then [] else [Line(groups, attrs[0])] + Lines(groups, attrs[1..])
  }

  /** Every attribute of a run that is not metadata, in call order. */
  function AllLines(ops: seq<Op>): seq<string> {
    if ops == [] then []
    else
      var before, op := ops[..|ops| - 1], ops[|ops| - 1];
      AllLines(before) + if op.Attrs? then Lines(Groups(before), ExtraOf(op.attrs)) else []
  }

  function MetaIn(op: Op): seq<Attr> { if op.Attrs? then MetaOf(op.attrs) else [] }

  /** All metadata of a run, in call order. */
  function AllMeta(ops: seq<Op>): seq<Attr> {
    if ops == [] then [] else AllMeta(ops[..|ops| - 1]) + MetaIn(ops[|ops| - 1])
  }

  lemma OpOnMetadata(s: State, op: Op)
    ensures Perform(s, op).metadata == Merged(s.metadata, MetaIn(op))
  {
    NothingAdded(s);
  }

  lemma LastOp(s: State, ops: seq<Op>)
    requires ops != []
    ensures var before, op := ops[..|ops| - 1], ops[|ops| - 1];
      After(s, ops) == Perform(After(s, before), op) && AllMeta(ops) == AllMeta(before) + MetaIn(op)
  {
  }

  lemma AttrsAssoc(a: seq<Attr>, b: seq<Attr>, c: seq<Attr>)
    ensures a + (b + c) == (a + b) + c
  {
  }

  lemma {:induction false} GroupsHaveNames(ops: seq<Op>)
    ensures NoneEmpty(Groups(ops))
  {
    if ops != [] {
      GroupsHaveNames(ops[..|ops| - 1]);
    }
  }

  lemma {:induction false} LinesAreNotEmpty(ops: seq<Op>)
    ensures NoneEmpty(AllLines(ops))
  {
    if ops != [] {
      LinesAreNotEmpty(ops[..|ops| - 1]);
    }
  }

  /** The group prefix is the dot-join of the names. */
  lemma {:induction false} GroupPrefix(ops: seq<Op>)
    ensures After(FRESH, ops).group == Join(Groups(ops), ".")
  {
    if ops != [] {
      var before, op := ops[..|ops| - 1], ops[|ops| - 1];
      GroupPrefix(before);
      GroupsHaveNames(before);
      var gs := Groups(before);
      if op.Group? && op.name != "" {
        JoinOnto(gs, [op.name], ".");
        assert [] + [op.name] == [op.name] && [Join(gs, ".")] + [op.name] == [Join(gs, "."), op.name];
      } else {
        assert gs + [] == gs;
      }
    }
  }

  lemma RenderedIsLine(groups: seq<string>, a: Attr)
    requires NoneEmpty(groups)
    ensures Rendered(Join(groups, "."), a) == Line(groups, a)
  {
    var g := Join(groups, ".");
    JoinOnto(groups, [a.key], ".");
    assert [] + [a.key] == [a.key] && [g] + [a.key] == [g, a.key];
  }

  /** The stored bytes are the space-join of every attribute of the run. */
  lemma {:induction false} FormattedIsAllLines(ops: seq<Op>)
    ensures After(FRESH, ops).formatted == Join(AllLines(ops), " ")
  {
    if ops != [] {
      var before, op := ops[..|ops| - 1], ops[|ops| - 1];
      var s := After(FRESH, before);
      FormattedIsAllLines(before);
      if op.Attrs? {
        var gs, extra := Groups(before), ExtraOf(op.attrs);
        GroupPrefix(before);
        GroupsHaveNames(before);
        LinesAreNotEmpty(before);
        forall i | 0 <= i < |extra|
          ensures RenderAll(s.group, extra)[i] == Lines(gs, extra)[i]
        {
          RenderedIsLine(gs, extra[i]);
        }
        assert RenderAll(s.group, extra) == Lines(gs, extra);
        JoinOnto(AllLines(before), Lines(gs, extra), " ");
      } else {
        assert AllLines(before) + [] == AllLines(before);
      }
    }
  }

  /** Metadata over a run: keys stay different, keys that were there keep their place, and every key
      holds the value written last. */
  lemma {:induction false} MetadataIsLastWritten(s: State, ops: seq<Op>)
    requires Unique(s.metadata)
    ensures var r := After(s, ops).metadata;
      && Unique(r) && |s.metadata| <= |r|
      && (forall i :: 0 <= i < |s.metadata| ==> r[i].key == s.metadata[i].key)
      && MapOf(r) == MapOf(s.metadata + AllMeta(ops))
  {
    if ops == [] {
      assert s.metadata + [] == s.metadata;
    } else {
      var before, op := ops[..|ops| - 1], ops[|ops| - 1];
      hide *;
      var r, more := After(s, before).metadata, MetaIn(op);
      LastOp(s, ops);
      OpOnMetadata(After(s, before), op);
      MetadataIsLastWritten(s, before);
      MergeKeepsPositions(r, more);
      MergeIsWriting(r, more);
      WritingOn(s.metadata + AllMeta(before), more);
      AttrsAssoc(s.metadata, AllMeta(before), more);
    }
  }

  /** Call `c` of a run is the first one to carry metadata under key `k`. */
  ghost predicate Opens(ops: seq<Op>, c: nat, k: string) {
    c < |ops| && HasKey(MetaIn(ops[c]), KeyOf, k) && forall d :: 0 <= d < c ==> !HasKey(MetaIn(ops[d]), KeyOf, k)
  }

  /** Key `x` comes first in an earlier call than `y`, or in the same one, where its last place is
      before the last place of `y`. */
  ghost predicate Earlier(ops: seq<Op>, x: string, y: string) {
    exists c: nat, d: nat :: Opens(ops, c, x) && Opens(ops, d, y) && (c < d || (c == d && PlacedBefore(ops, c, x, y)))
  }

  ghost predicate PlacedBefore(ops: seq<Op>, c: nat, x: string, y: string)
    requires Opens(ops, c, x) && Opens(ops, c, y)
  {
    LastIndex(MetaIn(ops[c]), KeyOf, x) < LastIndex(MetaIn(ops[c]), KeyOf, y)
  }

  lemma OpensOnce(ops: seq<Op>, c: nat, d: nat, k: string)
    requires Opens(ops, c, k) && Opens(ops, d, k)
    ensures c == d
  {
  }

  lemma EarlierIs(ops: seq<Op>, x: string, y: string) returns (c: nat, d: nat)
    requires Earlier(ops, x, y)
    ensures Opens(ops, c, x) && Opens(ops, d, y)
    ensures c < d || (c == d && PlacedBefore(ops, c, x, y))
  {
    hide Opens, PlacedBefore;
    c, d :| Opens(ops, c, x) && Opens(ops, d, y) && (c < d || (c == d && PlacedBefore(ops, c, x, y)));
  }

  lemma NotBothWays(ops: seq<Op>, x: string, y: string)
    ensures !(Earlier(ops, x, y) && Earlier(ops, y, x))
  {
    if Earlier(ops, x, y) && Earlier(ops, y, x) {
      hide Opens, Earlier;
      var c, d := EarlierIs(ops, x, y);
      var d', c' := EarlierIs(ops, y, x);
      OpensOnce(ops, c, c', x);
      OpensOnce(ops, d, d', y);
      assert false;
    }
  }

  lemma StillEarlier(ops: seq<Op>, op: Op, x: string, y: string)
    requires Earlier(ops, x, y)
    ensures Earlier(ops + [op], x, y)
  {
    hide Opens, PlacedBefore;
    var c, d := EarlierIs(ops, x, y);
    StillOpens(ops, op, c, x);
    StillOpens(ops, op, d, y);
    if c == d {
      StillPlaced(ops, op, c, x, y);
    }
  }

  lemma StillPlaced(ops: seq<Op>, op: Op, c: nat, x: string, y: string)
    requires Opens(ops, c, x) && Opens(ops, c, y) && Opens(ops + [op], c, x) && Opens(ops + [op], c, y)
    ensures PlacedBefore(ops, c, x, y) <==> PlacedBefore(ops + [op], c, x, y)
  {
    assert (ops + [op])[c] == ops[c];
  }

  lemma StillOpens(ops: seq<Op>, op: Op, c: nat, k: string)
    requires Opens(ops, c, k)
    ensures Opens(ops + [op], c, k)
  {
    assert forall d :: 0 <= d < |ops| ==> (ops + [op])[d] == ops[d];
  }

  ghost predicate Carried(ops: seq<Op>, k: string) {
    exists d :: 0 <= d < |ops| && HasKey(MetaIn(ops[d]), KeyOf, k)
  }

  lemma CarriedOneMore(ops: seq<Op>, op: Op, k: string)
    ensures Carried(ops + [op], k) <==> Carried(ops, k) || HasKey(MetaIn(op), KeyOf, k)
    ensures !Carried(ops, k) && HasKey(MetaIn(op), KeyOf, k) ==> Opens(ops + [op], |ops|, k)
  {
    assert forall d :: 0 <= d < |ops| ==> (ops + [op])[d] == ops[d];
    assert (ops + [op])[|ops|] == op;
  }

  lemma FrontAndLast(ops: seq<Op>)
    requires ops != []
    ensures ops == ops[..|ops| - 1] + [ops[|ops| - 1]]
  {
  }

  /** A key is there if it was before, or some call carried it; one call is the first. */
  lemma {:induction false} KeysOfARun(s: State, ops: seq<Op>, k: string) returns (c: nat)
    ensures HasKey(After(s, ops).metadata, KeyOf, k) <==> HasKey(s.metadata, KeyOf, k) || Carried(ops, k)
    ensures Carried(ops, k) ==> Opens(ops, c, k)
  {
    c := 0;
    if ops != [] {
      var before, op := ops[..|ops| - 1], ops[|ops| - 1];
      hide *;
      c := KeysOfARun(s, before, k);
      LastOp(s, ops);
      OpOnMetadata(After(s, before), op);
      MergedKeys(After(s, before).metadata, MetaIn(op), k);
      FrontAndLast(ops);
      CarriedOneMore(before, op, k);
      if Carried(before, k) {
        StillOpens(before, op, c, k);
      } else {
        c := |before|;
      }
    }
  }

  lemma KeyIsNew(s: State, ops: seq<Op>, i: nat) returns (c: nat)
    requires Unique(s.metadata) && |s.metadata| <= i < |After(s, ops).metadata|
    ensures Opens(ops, c, After(s, ops).metadata[i].key)
  {
    var r := After(s, ops).metadata;
    hide After, Opens, MapOf, LastOnes;
    MetadataIsLastWritten(s, ops);
    var k := r[i].key;
    assert KeyOf(r[i]) == k;
    c := KeysOfARun(s, ops, k);
    forall j | 0 <= j < |s.metadata|
      ensures KeyOf(s.metadata[j]) != k
    {
      assert r[j].key == s.metadata[j].key && r[j].key != r[i].key;
    }
  }

  lemma {:induction false} NewKeyOrder(s: State, ops: seq<Op>, i: nat, j: nat)
    requires Unique(s.metadata) && |s.metadata| <= i < j < |After(s, ops).metadata|
    ensures Earlier(ops, After(s, ops).metadata[i].key, After(s, ops).metadata[j].key)
  {
    if ops != [] {
      var before, op := ops[..|ops| - 1], ops[|ops| - 1];
      hide *;
      var was, more := After(s, before).metadata, MetaIn(op);
      LastOp(s, ops);
      OpOnMetadata(After(s, before), op);
      MetadataIsLastWritten(s, before);
      MergeKeepsPositions(was, more);
      FrontAndLast(ops);
      var r := After(s, ops).metadata;
      assert r == Merged(was, more);
      if j < |was| {
        NewKeyOrder(s, before, i, j);
        StillEarlier(before, op, r[i].key, r[j].key);
      } else {
        AddedLast(s, before, op, i, j);
      }
    }
  }

  lemma AddedLast(s: State, before: seq<Op>, op: Op, i: nat, j: nat)
    requires Unique(s.metadata) && Unique(After(s, before).metadata)
    requires |s.metadata| <= i < j && |After(s, before).metadata| <= j < |Merged(After(s, before).metadata, MetaIn(op))|
    ensures var r := Merged(After(s, before).metadata, MetaIn(op)); Earlier(before + [op], r[i].key, r[j].key)
  {
    hide *;
    var was, more := After(s, before).metadata, MetaIn(op);
    var x, y := Merged(was, more)[i].key, Merged(was, more)[j].key;
    MergeAdds(was, more, j);
    OpensLast(s, before, op, y);
    if i < |was| {
      MergeKeepsPositions(was, more);
      var c := KeyIsNew(s, before, i);
      StillOpens(before, op, c, x);
      OpensWithin(before, c, x);
      EarlierCall(before + [op], c, |before|, x, y);
    } else {
      MergeAdds(was, more, i);
      OpensLast(s, before, op, x);
      MergeAddsInOrder(was, more, i, j);
      EarlierInCall(before + [op], |before|, x, y);
    }
  }

  lemma OpensWithin(ops: seq<Op>, c: nat, k: string)
    requires Opens(ops, c, k)
    ensures c < |ops|
  {
  }

  lemma OpensLast(s: State, before: seq<Op>, op: Op, k: string)
    requires HasKey(MetaIn(op), KeyOf, k) && !HasKey(After(s, before).metadata, KeyOf, k)
    ensures Opens(before + [op], |before|, k)
  {
    hide *;
    var c := KeysOfARun(s, before, k);
    CarriedOneMore(before, op, k);
  }

  lemma EarlierCall(ops: seq<Op>, c: nat, d: nat, x: string, y: string)
    requires Opens(ops, c, x) && Opens(ops, d, y) && c < d
    ensures Earlier(ops, x, y)
  {
  }

  lemma EarlierInCall(ops: seq<Op>, c: nat, x: string, y: string)
    requires Opens(ops, c, x) && Opens(ops, c, y)
    requires PlacedBefore(ops, c, x, y)
    ensures Earlier(ops, x, y)
  {
  }

  /** The order of the keys that a run adds is decided by its calls, whatever was there before. */
  lemma NewKeysComeInOrder(s: State, ops: seq<Op>, i: nat, j: nat)
    requires Unique(s.metadata)
    requires |s.metadata| <= i < |After(s, ops).metadata| && |s.metadata| <= j < |After(s, ops).metadata| && i != j
    ensures i < j <==> Earlier(ops, After(s, ops).metadata[i].key, After(s, ops).metadata[j].key)
  {
    hide *;
    NotBothWays(ops, After(s, ops).metadata[i].key, After(s, ops).metadata[j].key);
    if i < j {
      NewKeyOrder(s, ops, i, j);
    } else {
      NewKeyOrder(s, ops, j, i);
    }
  }

  /** One call with both lists stores the same bytes as two calls, from any handler, and the same
      value under each metadata key. */
  lemma WithAttrsIsCompositional(s: State, a: seq<Attr>, b: seq<Attr>)
    requires Unique(s.metadata)
    ensures PlusAttrs(PlusAttrs(s, a), b).formatted == PlusAttrs(s, a + b).formatted
    ensures PlusAttrs(PlusAttrs(s, a), b).group == PlusAttrs(s, a + b).group
    ensures MapOf(PlusAttrs(PlusAttrs(s, a), b).metadata) == MapOf(PlusAttrs(s, a + b).metadata)
  {
    hide *;
    SplitConcat(a, b);
    FormattedConcat(s.formatted, s.group, ExtraOf(a), ExtraOf(b));
    var m := s.metadata;
    var ma, mb := MetaOf(a), MetaOf(b);
    PlusIs(s, a);
    PlusIs(PlusAttrs(s, a), b);
    PlusIs(s, a + b);
    MergeKeepsPositions(m, ma);
    MergeIsWriting(m, ma);
    MergeIsWriting(Merged(m, ma), mb);
    MergeIsWriting(m, ma + mb);
    WritingOn(ma, mb);
    assert MapOf(m) + (MapOf(ma) + MapOf(mb)) == (MapOf(m) + MapOf(ma)) + MapOf(mb);
  }

  lemma PlusIs(s: State, attrs: seq<Attr>)
    ensures PlusAttrs(s, attrs) == State(Merged(s.metadata, MetaOf(attrs)), s.group, Formatted(s.formatted, s.group, ExtraOf(attrs)))
  {
  }

  lemma RenderAllOneMore(group: string, attrs: seq<Attr>, a: Attr)
    ensures RenderAll(group, attrs + [a]) == RenderAll(group, attrs) + [Rendered(group, a)]
  {
    RenderAllConcat(group, attrs, [a]);
    assert RenderAll(group, [a]) == [Rendered(group, a)];
  }

  lemma {:induction false} RenderAllConcat(group: string, a: seq<Attr>, b: seq<Attr>)
    ensures RenderAll(group, a + b) == RenderAll(group, a) + RenderAll(group, b)
  {
    hide Rendered;
    if a == [] {
      assert a + b == b;
    } else {
      assert (a + b)[1..] == a[1..] + b;
      RenderAllConcat(group, a[1..], b);
      PiecesAssoc([Rendered(group, a[0])], RenderAll(group, a[1..]), RenderAll(group, b));
    }
  }

  lemma PiecesAssoc(a: seq<string>, b: seq<string>, c: seq<string>)
    ensures a + (b + c) == (a + b) + c
  {
  }

  lemma RenderNothing(group: string)
    ensures RenderAll(group, []) == []
  {
  }

  lemma RenderedIs(group: string, a: Attr)
    ensures Rendered(group, a) == (if group == "" then a.key else Join([group, a.key], ".")) + "=" + a.text
  {
  }

  lemma StartNotEmpty(before: string, group: string, a: seq<Attr>)
    ensures NoneEmpty((if before == "" then [] else [before]) + RenderAll(group, a))
  {
  }

  lemma FormattedConcat(before: string, group: string, a: seq<Attr>, b: seq<Attr>)
    ensures Formatted(Formatted(before, group, a), group, b) == Formatted(before, group, a + b)
  {
    hide *;
    var start := if before == "" then [] else [before];
    var ra, rb := RenderAll(group, a), RenderAll(group, b);
    StartNotEmpty(before, group, a);
    RenderAllConcat(group, a, b);
    FormattedJoins(before, group, a);
    FormattedJoins(before, group, a + b);
    assert start + (ra + rb) == (start + ra) + rb;
    FormattedOnto(start + ra, group, b);
  }

  lemma FormattedJoins(before: string, group: string, a: seq<Attr>)
    ensures Formatted(before, group, a) == Join((if before == "" then [] else [before]) + RenderAll(group, a), " ")
  {
  }

  lemma FormattedOnto(done: seq<string>, group: string, b: seq<Attr>)
    requires NoneEmpty(done)
    ensures Formatted(Join(done, " "), group, b) == Join(done + RenderAll(group, b), " ")
  {
    JoinOnto(done, RenderAll(group, b), " ");
  }

  // ---------------------------------------------------------------- the handler

  datatype Settings = Settings(level: int, sourceLevel: int, enableTime: bool, timeFormat: nat, levelFormat: nat, writer: nat)

  class ConsoleHandler {
    const settings: Settings
    var groupPrefix: string
    var preFormatted: string
    var metadata: array<Attr>

    ghost function View(): State
      reads this, metadata
    {
      State(metadata[..], groupPrefix, preFormatted)
    }

    constructor (settings: Settings)
      ensures View() == FRESH && this.settings == settings && fresh(metadata)
    {
      this.settings := settings;
      groupPrefix, preFormatted := "", "";
      metadata := new Attr[0];
    }

    constructor Copy(settings: Settings, groupPrefix: string, preFormatted: string, metadata: array<Attr>)
      ensures this.settings == settings && this.metadata == metadata
      ensures this.groupPrefix == groupPrefix && this.preFormatted == preFormatted
    {
      this.settings, this.groupPrefix, this.preFormatted, this.metadata := settings, groupPrefix, preFormatted, metadata;
    }

    /** A handler of its own: no later write to one reaches the other. */
    method Clone() returns (h: ConsoleHandler)
      ensures fresh(h) && fresh(h.metadata) && h.settings == settings && h.View() == View()
    {
      var copied := new Attr[metadata.Length](i requires 0 <= i < metadata.Length reads this, metadata => metadata[i]);
      h := new ConsoleHandler.Copy(settings, groupPrefix, preFormatted, copied);
      assert copied[..] == metadata[..];
    }

    method WithMetadata(attrs: seq<Attr>)
      requires attrs != [] && Unique(metadata[..])
      modifies this`metadata, metadata
      ensures metadata[..] == Merged(old(metadata[..]), attrs)
      ensures metadata == old(metadata) || fresh(metadata)
    {
      hide *;
      ghost var was := metadata[..];
      var ones := UniqByLast(attrs, KeyOf);
      if metadata.Length == 0 {
        metadata := new Attr[|ones|](i requires 0 <= i < |ones| => ones[i]);
        assert metadata[..] == ones;
        assert was == [];
        MergedIntoNothing(attrs);
        return;
      }
      var keys := Map(metadata[..], KeyOf);
      var indexes := IndexMap(keys);
      NothingYet(was);
      assert ones[..0] == [];
      for i := 0 to |ones|
        invariant metadata == old(metadata) || fresh(metadata)
        invariant metadata[..] == SoFar(was, ones[..i]) && |was| <= metadata.Length
      {
        var attr := ones[i];
        assert ones[..i + 1] == ones[..i] + [attr];
        KeyThere(was, keys, attr.key);
        if attr.key in indexes && indexes[attr.key] < metadata.Length {
          MergeReplaces(was, ones[..i], attr, indexes[attr.key]);
          Replace(indexes[attr.key], attr);
        } else {
          MergeAppends(was, ones[..i], attr);
          Append(attr);
        }
      }
      assert ones[..|ones|] == ones;
      MergeComplete(was, attrs);
    }

    method Replace(k: nat, attr: Attr)
      requires k < metadata.Length
      modifies metadata
      ensures metadata[..] == old(metadata[..])[k := attr]
    {
      metadata[k] := attr;
    }

    method Append(attr: Attr)
      modifies this`metadata
      ensures metadata[..] == old(metadata[..]) + [attr] && fresh(metadata)
    {
      metadata := new Attr[metadata.Length + 1](
        j requires 0 <= j <= metadata.Length reads this, metadata => if j < metadata.Length then metadata[j] else attr);
    }

    method WithFormatted(attrs: seq<Attr>)
      requires attrs != []
      modifies this`preFormatted
      ensures preFormatted == Formatted(old(preFormatted), groupPrefix, attrs)
    {
      hide *;
      var pieces: seq<string> := [];
      if |preFormatted| != 0 {
        pieces := [preFormatted];
      }
      ghost var start := pieces;
      RenderNothing(groupPrefix);
      FormattedJoins(preFormatted, groupPrefix, attrs);
      assert attrs[..0] == [] && start + [] == start;
      for i := 0 to |attrs|
        invariant pieces == start + RenderAll(groupPrefix, attrs[..i])
      {
        var key := attrs[i].key;
        if |groupPrefix| != 0 {
          key := Join([groupPrefix, key], ".");
        }
        RenderAllOneMore(groupPrefix, attrs[..i], attrs[i]);
        assert attrs[..i + 1] == attrs[..i] + [attrs[i]];
        RenderedIs(groupPrefix, attrs[i]);
        assert (start + RenderAll(groupPrefix, attrs[..i])) + [Rendered(groupPrefix, attrs[i])]
            == start + RenderAll(groupPrefix, attrs[..i + 1]);
        pieces := pieces + [key + "=" + attrs[i].text];
      }
      assert attrs[..|attrs|] == attrs;
      if |pieces| != 0 {
        preFormatted := Join(pieces, " ");
      }
    }

    method WithAttrs(attrs: seq<Attr>) returns (h: ConsoleHandler)
      requires Unique(metadata[..])
      ensures h.View() == PlusAttrs(View(), attrs) && h.settings == settings && Unique(h.metadata[..])
      ensures if attrs == [] then h == this else fresh(h) && fresh(h.metadata)
    {
      hide Merged, Formatted, RenderAll, Join, MetaOf, ExtraOf;
      SplitNothing();
      if |attrs| == 0 {
        NothingAdded(View());
        return this;
      }
      var meta, extra := SplitMetadata(attrs);
      h := Clone();
      MergeKeepsPositions(metadata[..], meta);
      NothingAdded(View());
      if |meta| != 0 {
        h.WithMetadata(meta);
      }
      if |extra| != 0 {
        h.WithFormatted(extra);
      }
    }

    method WithGroup(name: string) returns (h: ConsoleHandler)
      ensures h.View() == Perform(View(), Group(name)) && h.settings == settings
      ensures if name == "" then h == this else fresh(h) && fresh(h.metadata)
    {
      if name == "" {
        return this;
      }
      h := Clone();
      if |h.groupPrefix| == 0 {
        h.groupPrefix := name;
      } else {
        h.groupPrefix := Join([h.groupPrefix, name], ".");
      }
    }
  }

  lemma NothingAdded(s: State)
    ensures Merged(s.metadata, []) == s.metadata && Formatted(s.formatted, s.group, []) == s.formatted
  {
    forall i | 0 <= i < |s.metadata|
      ensures Overwritten(s.metadata, map[])[i] == s.metadata[i]
    {
      OverwrittenAt(s.metadata, map[], i);
    }
    assert Overwritten(s.metadata, map[]) == s.metadata;
    assert s.metadata + [] == s.metadata;
    if s.formatted != "" {
      assert [s.formatted] + [] == [s.formatted];
    }
  }

  lemma KeyThere(attrs: seq<Attr>, keys: seq<string>, k: string)
    requires |keys| == |attrs| && forall i :: 0 <= i < |attrs| ==> keys[i] == KeyOf(attrs[i])
    ensures HasKey(attrs, KeyOf, k) <==> k in keys
    ensures forall i :: 0 <= i < |attrs| ==> keys[i] == attrs[i].key
  {
    if HasKey(attrs, KeyOf, k) {
      var i :| 0 <= i < |attrs| && KeyOf(attrs[i]) == k;
      assert keys[i] == k;
    }
  }
}
