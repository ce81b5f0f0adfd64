/** The DOM sink: the decoder's calls turned into nodes of the store, and the round trip through it. */
module CborDom {
  import opened Wrappers
  import opened Bytes
  import opened CborRead
  import opened CborHeads
  import opened CborEncode
  import opened CborCanonical
  import opened CborRoundTrip
  import opened CborFaithful
  import CborDecode
  import CborLoose
  import CborFacts
  import DomStore
  import DomTree
  import Utf8

  /** What a node of the store carries besides its links. */
  datatype Data = ScalarData(tag: seq<byte>, tagId: nat, value: seq<byte>) | FloatData(tag: seq<byte>, bits: nat) | ListData(tag: seq<byte>)

  /** One sink call as the builder call it makes; None for a double that has no pattern here. */
  function CallOf(e: Event): Option<DomStore.Call<Data>> {
    match e
    case Open(isMap, _, tag) => Some(DomStore.Begin(ListData(tag), isMap))
    case Close(_) => Some(DomStore.End)
    case _ =>
      match NodeOfEvent(e)
      case None => None
      case Some(n) => Some(DomStore.Item(DataOf(n)))
  }

  function DataOf(n: Node): Data {
    match n
    case Scalar(tag, id, v) => ScalarData(tag, id, v)
    case FloatNode(tag, bits) => FloatData(tag, bits)
    case _ => ListData(n.tag)
  }

  function CallsOf(events: seq<Event>): Option<seq<DomStore.Call<Data>>> {
    if events == [] then Some([])
    else
      match CallOf(events[0])
      case None => None
      case Some(c) =>
        match CallsOf(events[1..])
        case None => None
        case Some(cs) => Some([c] + cs)
  }

  /** A node as the store's tree, and back. */
  function ToDom(n: Node): DomTree.Tree<Data>
    decreases n
  {
    if n.Sequence? || n.Mapping? then
      DomTree.Tree(ListData(n.tag), DomStore.ContainerKind(n.Mapping?),
                   seq(|n.kids|, k requires 0 <= k < |n.kids| => ToDom(n.kids[k])))
    else DomTree.Tree(DataOf(n), DomStore.Leaf, [])
  }

  function FromDom(t: DomTree.Tree<Data>): Node
    decreases t
  {
    match t.data
    case ScalarData(tag, id, v) => Scalar(tag, id, v)
    case FloatData(tag, bits) => FloatNode(tag, bits)
    case ListData(tag) =>
      var kids := seq(|t.kids|, k requires 0 <= k < |t.kids| => FromDom(t.kids[k]));
      if t.kind == DomStore.Map then Mapping(tag, kids) else Sequence(tag, kids)
  }

  /** No alias, and maps hold pairs. */
  predicate Regular(n: Node)
    decreases n
  {
    match n
    case Sequence(_, kids) => forall k :: 0 <= k < |kids| ==> Regular(kids[k])
    case Mapping(_, kids) => |kids| % 2 == 0 && forall k :: 0 <= k < |kids| ==> Regular(kids[k])
    case Alias(_) => false
    case _ => true
  }

  lemma {:induction false} ToFrom(n: Node)
    requires Regular(n)
    ensures FromDom(ToDom(n)) == n && DomTree.Paired(ToDom(n))
    decreases n
  {
    if n.Sequence? || n.Mapping? {
      forall k | 0 <= k < |n.kids| ensures FromDom(ToDom(n.kids[k])) == n.kids[k] && DomTree.Paired(ToDom(n.kids[k])) {
        ToFrom(n.kids[k]);
      }
      assert FromDom(ToDom(n)).kids == n.kids;
    }
  }

  // ---- the calls of a tree -----------------------------------------------------------

  lemma {:induction false} CallsJoin(a: seq<Event>, b: seq<Event>)
    requires CallsOf(a).Some? && CallsOf(b).Some?
    ensures CallsOf(a + b) == Some(CallsOf(a).value + CallsOf(b).value)
    decreases |a|
  {
    hide CallOf;
    if a == [] {
      assert a + b == b && CallsOf(a).value + CallsOf(b).value == CallsOf(b).value;
    } else {
      assert (a + b)[0] == a[0] && (a + b)[1..] == a[1..] + b;
      CallsJoin(a[1..], b);
      assert [CallOf(a[0]).value] + (CallsOf(a[1..]).value + CallsOf(b).value) ==
             [CallOf(a[0]).value] + CallsOf(a[1..]).value + CallsOf(b).value;
    }
  }

  lemma CallsOne(e: Event)
    requires CallOf(e).Some?
    ensures CallsOf([e]) == Some([CallOf(e).value])
  {
    hide CallOf;
    assert [e][1..] == [] && [e][0] == e;
    assert CallsOf([]) == Some([]);
    assert [CallOf(e).value] + [] == [CallOf(e).value];
  }

  function ToDomAll(ns: seq<Node>): (r: seq<DomTree.Tree<Data>>)
    ensures |r| == |ns|
  {
    seq(|ns|, k requires 0 <= k < |ns| => ToDom(ns[k]))
  }

  /** A delivered tree's calls are the builder calls of its node. */
  lemma {:induction false} SinkCalls(t: Tree)
    requires NodeOf(t).Some?
    ensures Regular(NodeOf(t).value) && CallsOf(CborFacts.Flat(t)) == Some(DomTree.Calls(ToDom(NodeOf(t).value)))
    decreases t
  {
    var n := NodeOf(t).value;
    match t
    case Scalar(e) =>
      CallsOne(e);
      assert CallsOf([e]) == Some([DomStore.Item(DataOf(n))]);
    case Branch(isMap, cap, tag, kids) =>
      SinkCallsAll(kids);
      BranchCalls(isMap, cap, tag, kids, NodesOf(kids).value);
  }

  lemma BranchCalls(isMap: bool, cap: Remaining, tag: seq<byte>, kids: seq<Tree>, ns: seq<Node>)
    requires CallsOf(CborFacts.FlatAll(kids)) == Some(DomTree.CallsAll(ToDomAll(ns)))
    ensures var n := if isMap then Mapping(tag, ns) else Sequence(tag, ns);
      CallsOf(CborFacts.Flat(CborFacts.Branch(isMap, cap, tag, kids))) == Some(DomTree.Calls(ToDom(n)))
  {
    hide CallsOf, DomTree.CallsAll, CborFacts.FlatAll;
    var n := if isMap then Mapping(tag, ns) else Sequence(tag, ns);
    var open, close := Open(isMap, cap, tag), Close(isMap);
    CallsOne(open);
    CallsOne(close);
    CallsJoin([open], CborFacts.FlatAll(kids));
    CallsJoin([open] + CborFacts.FlatAll(kids), [close]);
    assert ToDom(n).kids == ToDomAll(ns);
  }

  lemma {:induction false} SinkCallsAll(ts: seq<Tree>)
    requires NodesOf(ts).Some?
    ensures forall k :: 0 <= k < |NodesOf(ts).value| ==> Regular(NodesOf(ts).value[k])
    ensures CallsOf(CborFacts.FlatAll(ts)) == Some(DomTree.CallsAll(ToDomAll(NodesOf(ts).value)))
    decreases ts
  {
    hide CborFacts.Flat, DomTree.Calls, DomTree.CallsAll, CallsOf, NodeOf, ToDom, Regular;
    if ts == [] {
      NoDomCalls();
    } else {
      SinkCalls(ts[0]);
      SinkCallsAll(ts[1..]);
      NodesJoin(ts, NodeOf(ts[0]).value, NodesOf(ts[1..]).value);
    }
  }

  lemma NodesJoin(ts: seq<Tree>, n: Node, ns: seq<Node>)
    requires ts != [] && CallsOf(CborFacts.Flat(ts[0])) == Some(DomTree.Calls(ToDom(n)))
    requires CallsOf(CborFacts.FlatAll(ts[1..])) == Some(DomTree.CallsAll(ToDomAll(ns)))
    ensures CallsOf(CborFacts.FlatAll(ts)) == Some(DomTree.CallsAll(ToDomAll([n] + ns)))
  {
    hide CborFacts.Flat, DomTree.Calls, DomTree.CallsAll, CallsOf, ToDom;
    CallsJoin(CborFacts.Flat(ts[0]), CborFacts.FlatAll(ts[1..]));
    assert ToDomAll([n] + ns) == [ToDom(n)] + ToDomAll(ns);
    DomTree.CallsFront(ToDom(n), ToDomAll(ns));
  }

  lemma NoDomCalls()
    ensures CallsOf([]) == Some(DomTree.CallsAll<Data>(ToDomAll([])))
  {}

  // ---- decoding to a document -------------------------------------------------------------

  /** The document the store holds: its one root, read through the links. */
  function Document(s: DomStore.Store<Data>): Option<Node> {
    if |s.docs| != 1 || s.docs[0] >= |s.nodes| || s.stack != [] then None
    else
      match DomTree.ReadNode(s.nodes, s.docs[0])
      case None => None
      case Some(t) => Some(FromDom(t))
  }

  /** The document a run of sink calls builds. */
  function Built(events: seq<Event>): Option<Node> {
    match CallsOf(events)
    case None => None
    case Some(calls) =>
      match DomStore.Run(DomStore.Empty(), calls)
      case None => None
      case Some(s) => Document(s)
  }

  /** One item and nothing behind it, decoded to a document. */
  function Decoded(p: seq<byte>, strict: bool): Option<Node> {
    match Read(p, strict)
    case Failed(_, _) => None
    case Done(events, next) => if next == |p| then Built(events) else None
  }

  /** Delivering a tree's calls to the DOM sink builds that tree's node. */
  lemma SinkBuilds(t: Tree)
    requires NodeOf(t).Some?
    ensures Built(CborFacts.Flat(t)) == NodeOf(t)
  {
    hide CallsOf, CborFacts.Flat, DomTree.Calls, NodeOf, ToDom, DomStore.Run, DomTree.ReadNode, FromDom;
    SinkCalls(t);
    ToFrom(NodeOf(t).value);
    DomTree.Builds(ToDom(NodeOf(t).value));
    Nonempty(ToDom(NodeOf(t).value));
  }

  lemma Nonempty(t: DomTree.Tree<Data>)
    ensures DomTree.Size(t) > 0
  {}

  // ---- the sink as the program runs it --------------------------------------------------------

  lemma {:induction false} CallsPrefix(events: seq<Event>, k: nat)
    requires k <= |events| && CallsOf(events).Some?
    ensures CallsOf(events[..k]).Some?
    decreases k
  {
    hide CallOf;
    if k > 0 {
      CallsPrefix(events[1..], k - 1);
      assert events[..k][1..] == events[1..][..k - 1];
    }
  }

  lemma {:induction false} CallsAppend(events: seq<Event>, k: nat)
    requires k < |events| && CallsOf(events[..k]).Some?
    ensures CallsOf(events[..k + 1]) ==
      if CallOf(events[k]).Some? then Some(CallsOf(events[..k]).value + [CallOf(events[k]).value]) else None
  {
    hide CallOf, CallsOf;
    assert events[..k + 1] == events[..k] + [events[k]];
    if CallOf(events[k]).Some? {
      CallsOne(events[k]);
      CallsJoin(events[..k], [events[k]]);
    } else {
      CallsStop(events[..k + 1], k);
    }
  }

  lemma {:induction false} CallsStop(events: seq<Event>, k: nat)
    requires k < |events| && CallOf(events[k]).None?
    ensures CallsOf(events).None?
    decreases k
  {
    hide CallOf;
    if k > 0 { CallsStop(events[1..], k - 1); }
  }

  lemma {:induction false} RunStops(s: DomStore.Store<Data>, a: seq<DomStore.Call<Data>>, b: seq<DomStore.Call<Data>>)
    requires DomStore.Sound(s) && DomStore.Run(s, a).None?
    ensures DomStore.Run(s, a + b).None?
    decreases |a|
  {
    hide DomStore.Step, DomStore.Sound;
    assert (a + b)[0] == a[0] && (a + b)[1..] == a[1..] + b;
    var next := DomStore.Step(s, a[0]);
    if next.Some? { RunStops(next.value, a[1..], b); }
  }

  /** A call that cannot be made, or has nothing to close, ends it. */
  lemma Stuck(events: seq<Event>, k: nat)
    requires k < |events| && CallsOf(events[..k]).Some?
    requires var c, r := CallOf(events[k]), DomStore.Run(DomStore.Empty(), CallsOf(events[..k]).value);
      c.None? || (r.Some? && DomStore.Step(r.value, c.value).None?)
    ensures Built(events) == None
  {
    hide CallOf, CallsOf, DomStore.Run, DomStore.Step, Document;
    CallsAppend(events, k);
    var calls := CallsOf(events);
    if calls.Some? {
      CallsPrefix(events, k + 1);
      var done, c := CallsOf(events[..k]).value, CallOf(events[k]).value;
      var s := DomStore.Run(DomStore.Empty(), done).value;
      DomTree.RunSplit(DomStore.Empty(), done, [c]);
      DomTree.RunOne(s, c);
      CallsTail(events, k + 1);
      RunStops(DomStore.Empty(), done + [c], CallsOf(events[k + 1..]).value);
    }
  }

  lemma {:induction false} CallsTail(events: seq<Event>, k: nat)
    requires k <= |events| && CallsOf(events).Some?
    ensures CallsOf(events[..k]).Some? && CallsOf(events[k..]).Some?
    ensures CallsOf(events).value == CallsOf(events[..k]).value + CallsOf(events[k..]).value
    decreases k
  {
    hide CallOf;
    if k == 0 {
      assert events[0..] == events && CallsOf(events[..0]) == Some([]);
      assert [] + CallsOf(events).value == CallsOf(events).value;
    } else {
      CallsTail(events[1..], k - 1);
      assert events[..k][1..] == events[1..][..k - 1] && events[k..] == events[1..][k - 1..];
    }
  }

  /** yep_cbor_decode_dom_sink's calls, in order, on a fresh document. */
  method Deliver(events: seq<Event>) returns (doc: Option<Node>)
    ensures doc == Built(events)
  {
    hide DomStore.Run, DomStore.Step, DomStore.Sound, CallsOf, CallOf, Document;
    var dom := new DomStore.Dom<Data>();
    var k := 0;
    Started(events);
    while k < |events|
      invariant k <= |events| && fresh(dom) && DomStore.Sound(dom.State()) && CallsOf(events[..k]).Some?
      invariant DomStore.Run(DomStore.Empty(), CallsOf(events[..k]).value) == Some(dom.State())
    {
      ghost var before := dom.State();
      SinkStep(events, k, before);
      var e := events[k];
      if e.Open? {
        dom.OnBegin(ListData(e.tag), e.isMap);
      } else if e.Close? {
        if |dom.stack| == 0 {
          return None;
        }
        dom.OnEnd();
      } else {
        var n := NodeOfEvent(e);
        if n == None {
          return None;
        }
        dom.OnItem(DataOf(n.value));
      }
      k := k + 1;
    }
    assert events[..k] == events;
    return Document(dom.State());
  }

  lemma Started(events: seq<Event>)
    ensures CallsOf(events[..0]) == Some([]) && DomStore.Sound(DomStore.Empty<Data>())
    ensures DomStore.Run(DomStore.Empty<Data>(), []) == Some(DomStore.Empty())
  {}

  lemma SinkStep(events: seq<Event>, k: nat, s: DomStore.Store<Data>)
    requires k < |events| && CallsOf(events[..k]).Some? && DomStore.Sound(s)
    requires DomStore.Run(DomStore.Empty(), CallsOf(events[..k]).value) == Some(s)
    ensures CallOf(events[k]) ==
      if events[k].Open? then Some(DomStore.Begin(ListData(events[k].tag), events[k].isMap))
      else if events[k].Close? then Some(DomStore.End)
      else if NodeOfEvent(events[k]).Some? then Some(DomStore.Item(DataOf(NodeOfEvent(events[k]).value))) else None
    ensures CallOf(events[k]).None? || (events[k].Close? && s.stack == []) ==> Built(events) == None
    ensures CallOf(events[k]).Some? ==> CallsOf(events[..k + 1]).Some?
    ensures CallOf(events[k]).Some? && DomStore.Step(s, CallOf(events[k]).value).Some? ==>
      DomStore.Run(DomStore.Empty(), CallsOf(events[..k + 1]).value) == DomStore.Step(s, CallOf(events[k]).value)
  {
    hide CallsOf, DomStore.Run, DomStore.Sound, Document, DomStore.Place, NodeOfEvent, Built;
    var c := CallOf(events[k]);
    if c.None? || DomStore.Step(s, c.value).None? { Stuck(events, k); }
    CallsAppend(events, k);
    Started(events);
    if c.Some? {
      DomTree.RunSplit(DomStore.Empty(), CallsOf(events[..k]).value, [c.value]);
      DomTree.RunOne(s, c.value);
    }
  }

  /** What the decoder makes of any bytes: the document of the calls its loop goes on to make. */
  function Delivered(p: seq<byte>, strict: bool): Option<Node> {
    match CborLoose.LooseRead(p, strict)
    case Lost(_, _) => None
    case Left(events, next, _) => if next == |p| then Built(events) else None
  }

  /** yeptris_cbor_decode: one item, nothing behind it, as a document. */
  method DecodeDocument(p: seq<byte>, strict: bool) returns (doc: Option<Node>)
    ensures doc == Delivered(p, strict)
    ensures (Read(p, strict).Failed? ==> Read(p, strict).status != TagBeforeBreak) ==> doc == Decoded(p, strict)
  {
    hide Read, Built, CborLoose.LooseRead;
    CborLoose.LooseIsRead(p, strict);
    var d := new CborDecode.Decoder(p, strict);
    var ok, used := d.Decode(false);
    if !ok {
      return None;
    }
    doc := Deliver(d.events);
  }

  // ---- the round trip ----------------------------------------------------------------------

  /** Whatever the decoder delivers of an encoded tree has a node. */
  lemma {:induction false} TreeHasNode(n: Node, canonical: bool, key: bool, strict: bool, depth: nat)
    requires Encodable(n)
    ensures var t := TreeOf(n, canonical, key, strict, depth); t.Some? ==> NodeOf(t.value).Some?
    decreases n, 1, 0
  {
    hide Encodable, Chain, ChainText, Visit, KidTrees, KeysOk, VisitOk, ScalarEvent;
    if n.Sequence? || n.Mapping? {
      EncodableVisit(n, canonical);
      KidsHaveNodes(n, canonical, Visit(n, canonical), 0, strict, depth + 1);
      VisitCount(n, canonical);
    } else {
      EncodableTag(n);
      EventHasNode(n, key, strict);
    }
  }

  lemma EventHasNode(n: Node, key: bool, strict: bool)
    requires Encodable(n) && (n.Scalar? || n.FloatNode?)
    ensures var e := ScalarEvent(n, key, strict); e.Some? ==> NodeOfEvent(e.value).Some?
  {
    hide Chain, ChainText, IntScan, SimpleOf, WireNumber, DoubleOf, Utf8.Valid;
    if n.FloatNode? { NumberBack(n.bits); }
  }

  lemma {:induction false} KidsHaveNodes(n: Node, canonical: bool, visit: seq<nat>, k: nat, strict: bool, depth: nat)
    requires VisitOk(n, visit) && k <= |visit|
    ensures var ts := KidTrees(n, canonical, visit, k, strict, depth);
      ts.Some? ==> NodesOf(ts.value).Some? && |NodesOf(ts.value).value| == |visit| - k
    decreases n, 0, |visit| - k
  {
    hide TreeOf, NodeOf, Encodable;
    if k < |visit| {
      TreeHasNode(n.kids[visit[k]], canonical, n.Mapping? && k % 2 == 0, strict, depth);
      KidsHaveNodes(n, canonical, visit, k + 1, strict, depth);
      var t, ts := TreeOf(n.kids[visit[k]], canonical, n.Mapping? && k % 2 == 0, strict, depth), KidTrees(n, canonical, visit, k + 1, strict, depth);
      if t.Some? && ts.Some? { NodesFront(t.value, ts.value); }
    }
  }

  /**
   * decode(encode(n)), for every tree the encoder accepts, in either mode of both sides: n comes back, the pairs
   * of its maps as they were written, if and only if n is faithful.
   */
  lemma RoundTrip(n: Node, canonical: bool, strict: bool)
    requires Encodable(n)
    ensures Decoded(ItemBytes(n, canonical), strict) == Some(Arranged(n, canonical)) <==> Faithful(n, false, strict, 0)
  {
    hide ItemBytes, Read, Encodable, Faithful, TreeOf, CborFacts.Flat, NodeOf, Arranged, Built;
    var t := TreeOf(n, canonical, false, strict, 0);
    DecodeOfEncode(n, canonical, strict);
    TreeBack(n, canonical, false, strict, 0);
    TreeHasNode(n, canonical, false, strict, 0);
    if t.Some? { SinkBuilds(t.value); }
  }

  /** Insertion-order mode gives the very tree back. */
  lemma {:induction false} ArrangedSame(n: Node)
    requires Encodable(n) && Regular(n)
    ensures Arranged(n, false) == n
    decreases n
  {
    hide Encodable, Visit, KeysOk;
    if n.Sequence? || n.Mapping? {
      EncodableVisit(n, false);
      VisitsEach(n);
      forall k | 0 <= k < |n.kids| ensures Arranged(n, false).kids[k] == n.kids[k] {
        EncodableKid(n, k);
        ArrangedSame(n.kids[k]);
      }
      assert Arranged(n, false).kids == n.kids;
    }
  }

  lemma VisitsEach(n: Node)
    requires n.Sequence? || n.Mapping?
    ensures Visit(n, false) == Iota(Width(n))
  {
    hide KeysAndValues;
    if n.Mapping? {
      forall k | 0 <= k < Width(n) ensures Visit(n, false)[k] == k { PairsFromIota(Pairs(n), k); }
    }
  }

  /** The round trip in insertion order, for trees whose maps are pairs. */
  lemma RoundTripSame(n: Node, strict: bool)
    requires Encodable(n) && Regular(n)
    ensures Decoded(ItemBytes(n, false), strict) == Some(n) <==> Faithful(n, false, strict, 0)
  {
    hide ItemBytes, Encodable, Faithful, Arranged, Decoded;
    RoundTrip(n, false, strict);
    ArrangedSame(n);
  }

  /** Canonical bytes are a fixpoint: decoded and encoded again they are the same bytes. */
  lemma CanonicalFixpoint(n: Node, strict: bool)
    requires Encodable(n) && Faithful(n, false, strict, 0)
    ensures var m := Decoded(ItemBytes(n, true), strict);
      m.Some? && Encodable(m.value) && ItemBytes(m.value, true) == ItemBytes(n, true)
  {
    hide ItemBytes, Encodable, Faithful, Arranged, Decoded;
    RoundTrip(n, true, strict);
    ArrangedFixpoint(n, true);
  }

  // ---- tag texts -------------------------------------------------------------------------------

  lemma {:induction false} LinkEndPast(d: seq<byte>, rest: seq<byte>, i: nat)
    requires i <= |d| && (forall k :: 0 <= k < |d| ==> IsDigit(d[k])) && (rest == [] || !IsDigit(rest[0]))
    ensures LinkEnd(d + rest, i) == |d|
    decreases |d| - i
  {
    if i < |d| {
      assert (d + rest)[i] == d[i];
      LinkEndPast(d, rest, i + 1);
    } else if rest != [] {
      assert (d + rest)[i] == rest[0];
    }
  }

  /** Chain text, front link first. */
  lemma {:induction false} ChainTextFront(c: seq<nat>)
    requires |c| > 1
    ensures ChainText(c) == Decimal(c[0]) + [0x20] + ChainText(c[1..])
    decreases |c|
  {
    hide Decimal;
    var init, last := c[..|c| - 1], c[|c| - 1];
    if |c| == 2 {
      assert c[1..] == [c[1]];
    } else {
      ChainTextFront(init);
      assert c[1..][..|c| - 2] == init[1..];
      assert Decimal(c[0]) + [0x20] + ChainText(init[1..]) + [0x20] + Decimal(last) ==
             Decimal(c[0]) + [0x20] + (ChainText(init[1..]) + [0x20] + Decimal(last));
    }
  }

  lemma ChainTextNonempty(c: seq<nat>)
    requires c != []
    ensures |ChainText(c)| > 0
  {}

  /** The links read back from chain text that stands behind some prefix. */
  lemma {:induction false} LinksReadBack(pre: seq<byte>, c: seq<nat>, max: nat)
    requires 0 < |c| <= max && forall k :: 0 <= k < |c| ==> c[k] < TWO_64
    ensures Links(pre + ChainText(c), |pre|, max) == Some(c)
    decreases |c|
  {
    hide Decimal, DigitsValue, LinkEnd, ChainText;
    var d := Decimal(c[0]);
    var rest := if |c| == 1 then [] else [0x20] + ChainText(c[1..]);
    OneLink(c);
    if |c| > 1 { ChainTextFront(c); }
    assert ChainText(c) == d + rest;
    var t := pre + ChainText(c);
    LinkEndShift(pre, d + rest, 0);
    LinkEndPast(d, rest, 0);
    assert t[|pre|..|pre| + |d|] == d;
    DecimalRoundTrip(c[0]);
    if |c| > 1 {
      ChainTextNonempty(c[1..]);
      assert t[|pre| + |d|] == 0x20;
      assert t == pre + d + [0x20] + ChainText(c[1..]);
      LinksReadBack(pre + d + [0x20], c[1..], max - 1);
      assert [c[0]] + c[1..] == c;
    } else {
      assert c == [c[0]];
    }
  }

  lemma OneLink(c: seq<nat>)
    requires c != []
    ensures |c| == 1 ==> ChainText(c) == Decimal(c[0])
  {}

  lemma {:induction false} LinkEndShift(pre: seq<byte>, t: seq<byte>, i: nat)
    requires i <= |t|
    ensures LinkEnd(pre + t, |pre| + i) == |pre| + LinkEnd(t, i)
    decreases |t| - i
  {
    if i < |t| {
      assert (pre + t)[|pre| + i] == t[i];
      LinkEndShift(pre, t, i + 1);
    }
  }

  /** Every chain of up to 64 tag numbers survives as text: its rendering is a tag the encoder reads back as it. */
  lemma ChainRoundTrip(c: seq<nat>)
    requires |c| <= TAG_MAX_LINKS && forall k :: 0 <= k < |c| ==> c[k] < TWO_64
    ensures Chain(ChainText(c)) == Some(c) && CanonicalTag(ChainText(c))
  {
    hide Links, ChainText;
    if c == [] {
      CborLoose.NoChain();
    } else {
      ChainTextNonempty(c);
      LinksReadBack([], c, TAG_MAX_LINKS);
      assert [] + ChainText(c) == ChainText(c);
    }
  }

  // ---- reserved words that are not recognized ----------------------------------------------------

  /** The word of a simple value names that value back exactly from "simple(10)" on. */
  lemma SimpleWordBack(n: nat)
    requires n < 20 || 32 <= n < 256
    ensures SimpleOf(SimpleText(n)) == Some(n) <==> n >= 10
    ensures n < 10 ==> SimpleOf(SimpleText(n)) == None
    ensures Utf8.Valid(SimpleText(n)) && |SimpleText(n)| < TWO_64
  {
    var v := SimpleText(n);
    DecimalRoundTrip(n);
    Uint64Digits(n);
    if n < 10 { OneDigit(n); } else { TwoDigits(n); }
    hide Decimal, Utf8.Valid;
    Utf8.AsciiValid(v);
    assert v[..7] == SIMPLE_OPEN && v[7..|v| - 1] == Decimal(n);
    assert v[0] == 's' as int;
  }

  lemma TwoDigits(n: nat)
    requires n >= 10
    ensures |Decimal(n)| >= 2
  {}

  /** Decoding the item gives the word, in both modes. */
  lemma SimpleDecoded(n: nat, strict: bool)
    requires n < 20 || 32 <= n < 256
    ensures Decoded(SimpleBytes(n), strict) == Some(Scalar([], TAG_STR, SimpleText(n)))
  {
    hide Utf8.Valid, Decimal, SimpleText;
    CborLoose.NoChain();
    var t := CborFacts.Scalar(Text(SimpleText(n), TAG_STR, false, []));
    assert Read(SimpleBytes(n), strict) == Done(CborFacts.Flat(t), |SimpleBytes(n)|);
    SinkBuilds(t);
  }

  /** An unassigned simple value survives decoding and encoding exactly when it is 10 or more. */
  lemma SimpleRoundTrip(n: nat, canonical: bool)
    requires n < 20 || 32 <= n < 256
    ensures var word := Scalar([], TAG_STR, SimpleText(n));
      Encodable(word) && (ItemBytes(word, canonical) == SimpleBytes(n) <==> n >= 10)
  {
    SimpleWordBack(n);
    hide Utf8.Valid, Decimal, SimpleText, SimpleOf;
    var word := Scalar([], TAG_STR, SimpleText(n));
    assert Tags(word) == [];
    assert ItemBytes(word, canonical) == TextBytes(false, SimpleText(n));
    if n < 10 { TextIsLonger(SimpleText(n), n); }
  }

  lemma TextIsLonger(v: seq<byte>, n: nat)
    requires Utf8.Valid(v) && |v| < TWO_64 && n < 10
    ensures StringItem(v) != [0xE0 + n]
  {
    hide Utf8.Valid;
    var h := HeadBytes(3, |v|);
    assert (h + v)[0] == h[0] < 0x80;
  }

  const SIMPLE_FIVE: seq<byte> := SimpleText(5)

  /** `e5` decodes to the word "simple(5)", which is too short to be recognized and encodes as a text string. */
  lemma OneDigitSimple(strict: bool)
    ensures Decoded([0xE5], strict) == Some(Scalar([], TAG_STR, SIMPLE_FIVE))
    ensures Encodable(Scalar([], TAG_STR, SIMPLE_FIVE)) && ItemBytes(Scalar([], TAG_STR, SIMPLE_FIVE), false) != [0xE5]
  {
    SimpleDecoded(5, strict);
    SimpleRoundTrip(5, false);
  }

  lemma OneDigit(d: nat)
    requires d < 10
    ensures Decimal(d) == [0x30 + d]
  {}
}
