/** Decoding what was encoded: for every tree the encoder accepts, what the decoder makes of its bytes. */
module CborRoundTrip {
  import opened Wrappers
  import opened Bytes
  import opened CborRead
  import opened CborHeads
  import opened CborEncode
  import opened CborCanonical
  import CborFacts
  import Floats
  import Utf8

  // ---- heads ---------------------------------------------------------------------

  /** A head reads back as its major type and argument, in strict mode too: it is minimal. */
  lemma {:induction false} HeadReadsBack(p: seq<byte>, i: nat, mt: nat, arg: nat, strict: bool)
    requires mt < 8 && arg < TWO_64 && Stands(p, i, HeadBytes(mt, arg))
    ensures p[i] / 32 == mt && p[i] % 32 < 28
    ensures ReadArg(p, i + 1, p[i] % 32, strict) == ArgOk(arg, i + ArgBytes(arg))
  {
    hide BigEndian, ToBigEndian, Power256;
    var n := ArgBytes(arg) - 1;
    var s := p[i..i + 1 + n];
    assert p[i] == s[0];
    InitialByte(mt, if n == 0 then arg else PayloadInfo(n));
    if n > 0 {
      Powers();
      BigEndianRoundTrip(arg, n);
      assert p[i + 1..i + 1 + n] == s[1..] == ToBigEndian(arg, n);
    }
  }

  lemma InitialByte(mt: nat, ai: nat)
    requires mt < 8 && ai < 32
    ensures (mt * 32 + ai) / 32 == mt && (mt * 32 + ai) % 32 == ai
  {}

  // ---- tags -------------------------------------------------------------------------

  lemma {:induction false} TagsFront(x: nat, rest: seq<nat>)
    requires x < TWO_64 && forall k :: 0 <= k < |rest| ==> rest[k] < TWO_64
    ensures TagHeads([x] + rest) == HeadBytes(6, x) + TagHeads(rest)
    decreases |rest|
  {
    hide HeadBytes;
    var c := [x] + rest;
    if rest == [] {
      assert c[..0] == [];
    } else {
      assert c[..|c| - 1] == [x] + rest[..|rest| - 1];
      TagsFront(x, rest[..|rest| - 1]);
    }
  }

  lemma TagReadsBack(p: seq<byte>, i: nat, pending: seq<nat>, x: nat, f: Frame, depth: nat, strict: bool)
    requires x < TWO_64 && |pending| < TAG_MAX_LINKS && Stands(p, i, HeadBytes(6, x))
    ensures ReadHead(p, i, pending, f.KeySlot(), depth, strict, false) == Tag(x, i + ArgBytes(x))
  {
    hide HeadBytes, ChainText, ReadArg;
    HeadReadsBack(p, i, 6, x, strict);
  }

  /** The tag heads in front of an item only fill the pending chain. */
  lemma {:induction false} TagsReadBack(p: seq<byte>, i: nat, pending: seq<nat>, chain: seq<nat>, f: Frame, depth: nat, strict: bool)
    requires forall k :: 0 <= k < |chain| ==> chain[k] < TWO_64
    requires |pending| + |chain| <= TAG_MAX_LINKS && f.rem.Items? && Stands(p, i, TagHeads(chain))
    ensures ReadItem(p, i, pending, f, depth, strict, false) ==
            ReadItem(p, i + |TagHeads(chain)|, pending + chain, f, depth, strict, false)
    decreases |chain|
  {
    hide HeadBytes, TagHeads, ReadHead;
    if chain == [] {
      assert pending + chain == pending;
      NoHeads();
    } else {
      var x, rest := chain[0], chain[1..];
      assert chain == [x] + rest && pending + [x] + rest == pending + chain;
      TagsFront(x, rest);
      StandsSplit(p, i, HeadBytes(6, x), TagHeads(rest));
      TagReadsBack(p, i, pending, x, f, depth, strict);
      TagsReadBack(p, i + ArgBytes(x), pending + [x], rest, f, depth, strict);
    }
  }

  lemma NoHeads()
    ensures TagHeads([]) == []
  {}

  // ---- the tree the decoder delivers ---------------------------------------------------

  type Tree = CborFacts.Tree

  /** The tag text the decoder renders for a node's chain. */
  function TagText(n: Node): seq<byte>
    requires Chain(n.tag).Some?
  {
    ChainText(Chain(n.tag).value)
  }

  function LeafEvent(h: Head): Option<Event> {
    if h.Leaf? then Some(h.event) else None
  }

  /** The wire form chosen for a double. */
  function WireNumber(bits: nat): Number
    requires bits < TWO_64
  {
    var w := FloatWidth(bits);
    if w == 2 then Half(Floats.DoubleToHalf(bits)) else if w == 4 then Single(Floats.Narrow(bits)) else Double(bits)
  }

  /** What reading a string item or simple value delivers. */
  function TextEvent(tagged: bool, v: seq<byte>, key: bool, strict: bool, tag: seq<byte>): Option<Event> {
    if !tagged && SimpleOf(v).Some? then Some(SimpleEvent(SimpleOf(v).value, key, tag))
    else if Utf8.Valid(v) then Some(Str(v, true, key, tag))
    else if key && strict then None
    else if key then Some(Text(HexKey(v), TAG_STR, true, tag))
    else Some(ByteStr(v, true, false, tag))
  }

  function IntEvent(i: int, key: bool, strict: bool, tag: seq<byte>): Option<Event> {
    LeafEvent(IntHead(i < 0, if i < 0 then 0 - (i + 1) else i, key, strict, tag, 0))
  }

  /** The one call a scalar's bytes lead to; None when a key is refused. */
  function ScalarEvent(n: Node, key: bool, strict: bool): Option<Event>
    requires Encodable(n) && (n.Scalar? || n.FloatNode?)
  {
    var tag := TagText(n);
    match n
    case FloatNode(_, bits) => if key && strict then None else Some(Float(WireNumber(bits), key, tag))
    case Scalar(_, id, v) =>
      if NumberTag(id) then IntEvent(IntScan(v).value, key, strict, tag)
      else if id == TAG_BOOL then Some(SimpleEvent(if BoolValue(v) then 21 else 20, key, tag))
      else if id == TAG_NULL then Some(SimpleEvent(22, key, tag))
      else TextEvent(n.tag != [], v, key, strict, tag)
  }

  // ---- scalars read back --------------------------------------------------------------------

  function Expected(e: Option<Event>, next: nat): Head {
    if e.Some? then Leaf(e.value, next) else Reject(Parse)
  }

  lemma {:induction false} IntReadsBack(p: seq<byte>, i: nat, v: int, chain: seq<nat>, key: bool, depth: nat, strict: bool)
    requires 0 - INT64_MAX - 1 <= v <= INT64_MAX && Stands(p, i, IntBytes(v))
    ensures ReadHead(p, i, chain, key, depth, strict, false) ==
            Expected(IntEvent(v, key, strict, ChainText(chain)), i + |IntBytes(v)|)
  {
    hide ChainText, ReadArg, HeadBytes;
    if v < 0 { HeadReadsBack(p, i, 1, 0 - (v + 1), strict); } else { HeadReadsBack(p, i, 0, v, strict); }
  }

  lemma {:induction false} SimpleReadsBack(p: seq<byte>, i: nat, v: nat, chain: seq<nat>, key: bool, depth: nat, strict: bool)
    requires (v < 24 || 32 <= v < 256) && Stands(p, i, SimpleBytes(v))
    ensures ReadHead(p, i, chain, key, depth, strict, false) ==
            Leaf(SimpleEvent(v, key, ChainText(chain)), i + |SimpleBytes(v)|)
  {
    hide ChainText, ReadArg, SimpleEvent;
    assert p[i] == p[i..i + |SimpleBytes(v)|][0];
    if v >= 32 { assert p[i + 1] == p[i..i + 2][1]; }
  }

  lemma {:induction false} StringReadsBack(p: seq<byte>, i: nat, v: seq<byte>, chain: seq<nat>, key: bool, depth: nat, strict: bool)
    requires |v| < TWO_64 && Stands(p, i, StringItem(v))
    ensures ReadHead(p, i, chain, key, depth, strict, false) ==
            Expected(TextEvent(true, v, key, strict, ChainText(chain)), i + |StringItem(v)|)
  {
    hide ChainText, ReadArg, HeadBytes, Utf8.Valid, SimpleOf, HexKey;
    var mt := if Utf8.Valid(v) then 3 else 2;
    StandsSplit(p, i, HeadBytes(mt, |v|), v);
    HeadReadsBack(p, i, mt, |v|, strict);
  }

  lemma {:induction false} TextReadsBack(p: seq<byte>, i: nat, tagged: bool, v: seq<byte>, chain: seq<nat>, key: bool, depth: nat, strict: bool)
    requires |v| < TWO_64 && Stands(p, i, TextBytes(tagged, v))
    ensures ReadHead(p, i, chain, key, depth, strict, false) ==
            Expected(TextEvent(tagged, v, key, strict, ChainText(chain)), i + |TextBytes(tagged, v)|)
  {
    hide ChainText, ReadHead, SimpleBytes, StringItem, Utf8.Valid, SimpleOf, HexKey, SimpleEvent;
    if !tagged && SimpleOf(v).Some? {
      SimpleReadsBack(p, i, SimpleOf(v).value, chain, key, depth, strict);
    } else {
      StringReadsBack(p, i, v, chain, key, depth, strict);
    }
  }

  lemma {:induction false} FloatReadsBack(p: seq<byte>, i: nat, bits: nat, chain: seq<nat>, key: bool, depth: nat, strict: bool)
    requires bits < TWO_64 && Stands(p, i, FloatBytes(bits))
    ensures ReadHead(p, i, chain, key, depth, strict, false) ==
      if key && strict then Reject(Parse) else Leaf(Float(WireNumber(bits), key, ChainText(chain)), i + |FloatBytes(bits)|)
  {
    hide ChainText, ReadArg, FloatWidth, BigEndian, ToBigEndian;
    hide Floats.DoubleToHalf, Floats.Narrow, Floats.FitsSingle;
    var w := FloatWidth(bits);
    FloatPayload(bits);
    var s := p[i..i + 1 + w];
    assert p[i] == s[0] && p[i + 1..i + 1 + w] == s[1..];
  }

  /** The payload spells the wire number's pattern. */
  lemma {:induction false} FloatPayload(bits: nat)
    requires bits < TWO_64
    ensures var w := FloatWidth(bits);
      BigEndian(FloatBytes(bits)[1..]) ==
      if w == 2 then Floats.DoubleToHalf(bits) else if w == 4 then Floats.Narrow(bits) else bits
  {
    hide Floats.DoubleToHalf, Floats.Narrow, BigEndian, ToBigEndian;
    var w := FloatWidth(bits);
    Powers();
    if w == 2 {
      HalfRange(bits);
      BigEndianRoundTrip(Floats.DoubleToHalf(bits), 2);
      assert FloatBytes(bits)[1..] == ToBigEndian(Floats.DoubleToHalf(bits), 2);
    } else if w == 4 {
      Floats.NarrowWidens(bits);
      BigEndianRoundTrip(Floats.Narrow(bits), 4);
      assert FloatBytes(bits)[1..] == ToBigEndian(Floats.Narrow(bits), 4);
    } else {
      BigEndianRoundTrip(bits, 8);
      assert FloatBytes(bits)[1..] == ToBigEndian(bits, 8);
    }
  }

  lemma {:induction false} HalfRange(bits: nat)
    requires bits < TWO_64 && (Floats.IsNaN(bits) || Floats.FitsHalf(bits))
    ensures Floats.DoubleToHalf(bits) < 0x1_0000
  {}

  lemma {:induction false} ScalarReadsBack(p: seq<byte>, i: nat, n: Node, key: bool, depth: nat, strict: bool)
    requires Encodable(n) && (n.Scalar? || n.FloatNode?) && Stands(p, i, ScalarBytes(n))
    ensures ReadHead(p, i, Chain(n.tag).value, key, depth, strict, false) ==
            Expected(ScalarEvent(n, key, strict), i + |ScalarBytes(n)|)
  {
    hide ReadHead, IntBytes, FloatBytes, TextBytes, Chain, IntScan, ChainText, TextEvent, IntEvent, SimpleEvent, WireNumber;
    var chain := Chain(n.tag).value;
    if n.FloatNode? {
      FloatReadsBack(p, i, n.bits, chain, key, depth, strict);
    } else if NumberTag(n.tagId) {
      IntReadsBack(p, i, IntScan(n.value).value, chain, key, depth, strict);
    } else if n.tagId == TAG_BOOL {
      SimpleReadsBack(p, i, if BoolValue(n.value) then 21 else 20, chain, key, depth, strict);
    } else if n.tagId == TAG_NULL {
      SimpleReadsBack(p, i, 22, chain, key, depth, strict);
    } else {
      TextReadsBack(p, i, n.tag != [], n.value, chain, key, depth, strict);
    }
  }

  // ---- whole items read back ------------------------------------------------------------------

  /**
   * The tree of calls the decoder makes on an item's bytes, or None when it refuses them: a container as a key or
   * nested past the limit, or a key the mode refuses.
   */
  function TreeOf(n: Node, canonical: bool, key: bool, strict: bool, depth: nat): Option<Tree>
    requires Encodable(n)
    decreases n, 1, 0
  {
    if n.Sequence? || n.Mapping? then
      EncodableVisit(n, canonical);
      if key || depth >= MAX_DEPTH then None
      else
        match KidTrees(n, canonical, Visit(n, canonical), 0, strict, depth + 1)
        case None => None
        case Some(ts) => Some(CborFacts.Branch(n.Mapping?, Items(Width(n)), TagText(n), ts))
    else
      match ScalarEvent(n, key, strict)
      case None => None
      case Some(e) => Some(CborFacts.Scalar(e))
  }

  function KidTrees(n: Node, canonical: bool, visit: seq<nat>, k: nat, strict: bool, depth: nat): Option<seq<Tree>>
    requires VisitOk(n, visit) && k <= |visit|
    decreases n, 0, |visit| - k
  {
    if k == |visit| then Some([])
    else
      match TreeOf(n.kids[visit[k]], canonical, n.Mapping? && k % 2 == 0, strict, depth)
      case None => None
      case Some(t) =>
        match KidTrees(n, canonical, visit, k + 1, strict, depth)
        case None => None
        case Some(ts) => Some([t] + ts)
  }

  lemma {:induction false} ItemsFront(n: Node, canonical: bool, visit: seq<nat>)
    requires VisitOk(n, visit) && visit != []
    ensures ItemsBytes(n, canonical, visit) == ItemBytes(n.kids[visit[0]], canonical) + ItemsBytes(n, canonical, visit[1..])
    decreases |visit|
  {
    hide ItemBytes, Encodable;
    if |visit| == 1 {
      assert visit[..0] == [] && visit[1..] == [];
    } else {
      var front := visit[..|visit| - 1];
      ItemsFront(n, canonical, front);
      assert front[1..] == visit[1..][..|visit[1..]| - 1];
    }
  }

  /** Reading gave the tree's calls and stopped right after the item, or failed when there is no tree. */
  predicate Agrees(o: Outcome, t: Option<Tree>, next: nat) {
    if t.Some? then o == Done(CborFacts.Flat(t.value), next) else o.Failed?
  }

  predicate BodyAgrees(o: Outcome, ts: Option<seq<Tree>>, isMap: bool, next: nat) {
    if ts.Some? then o == Done(CborFacts.FlatAll(ts.value) + [Close(isMap)], next) else o.Failed?
  }

  lemma {:induction false} ItemReadsBack(n: Node, canonical: bool, p: seq<byte>, i: nat, f: Frame, depth: nat, strict: bool)
    requires Encodable(n) && f.rem.Items? && Stands(p, i, ItemBytes(n, canonical))
    ensures Agrees(ReadItem(p, i, [], f, depth, strict, false), TreeOf(n, canonical, f.KeySlot(), strict, depth),
                   i + |ItemBytes(n, canonical)|)
    decreases n, 1, 0
  {
    hide Encodable, Chain, TagHeads, ItemsBytes, Visit, ScalarBytes, ContainerHeadBytes, ReadItem, VisitOk, TreeOf, Storable;
    EncodableTag(n);
    var chain := Chain(n.tag).value;
    assert [] + chain == chain;
    if n.Sequence? || n.Mapping? {
      EncodableVisit(n, canonical);
      var body := ContainerHeadBytes(n) + ItemsBytes(n, canonical, Visit(n, canonical));
      assert ItemBytes(n, canonical) == Tags(n) + body;
      StandsSplit(p, i, Tags(n), body);
      TagsReadBack(p, i, [], chain, f, depth, strict);
      ContainerReadsBack(n, canonical, p, i + |Tags(n)|, f, depth, strict);
    } else {
      StandsSplit(p, i, Tags(n), ScalarBytes(n));
      TagsReadBack(p, i, [], chain, f, depth, strict);
      ScalarItem(n, canonical, p, i + |Tags(n)|, f, depth, strict);
    }
  }

  lemma EncodableTag(n: Node)
    requires Encodable(n)
    ensures Chain(n.tag).Some? && |Chain(n.tag).value| <= TAG_MAX_LINKS && !n.Alias? && Storable(n)
  {}

  lemma ScalarItem(n: Node, canonical: bool, p: seq<byte>, i: nat, f: Frame, depth: nat, strict: bool)
    requires Encodable(n) && (n.Scalar? || n.FloatNode?) && f.rem.Items? && Stands(p, i, ScalarBytes(n))
    ensures Agrees(ReadItem(p, i, Chain(n.tag).value, f, depth, strict, false),
                   TreeOf(n, canonical, f.KeySlot(), strict, depth), i + |ScalarBytes(n)|)
  {
    hide Encodable, Chain, ScalarBytes, ScalarEvent, ReadHead;
    ScalarReadsBack(p, i, n, f.KeySlot(), depth, strict);
  }

  lemma {:induction false} ContainerReadsBack(n: Node, canonical: bool, p: seq<byte>, i: nat, f: Frame, depth: nat, strict: bool)
    requires (n.Sequence? || (n.Mapping? && KeysOk(n))) && Encodable(n) && VisitOk(n, Visit(n, canonical)) && f.rem.Items?
    requires Stands(p, i, ContainerHeadBytes(n) + ItemsBytes(n, canonical, Visit(n, canonical)))
    ensures Agrees(ReadItem(p, i, Chain(n.tag).value, f, depth, strict, false),
                   TreeOf(n, canonical, f.KeySlot(), strict, depth),
                   i + |ContainerHeadBytes(n) + ItemsBytes(n, canonical, Visit(n, canonical))|)
    decreases n, 0, |n.kids| + 2
  {
    hide Encodable, Chain, ContainerHeadBytes, ReadHead, KeysOk, VisitOk, Visit, ItemsBytes, KidTrees, ReadBody, Storable;
    EncodableTag(n);
    var head, visit := ContainerHeadBytes(n), Visit(n, canonical);
    StandsSplit(p, i, head, ItemsBytes(n, canonical, visit));
    ContainerHeadReads(n, p, i, f, depth, strict);
    if !f.KeySlot() && depth < MAX_DEPTH {
      assert visit[0..] == visit;
      BodyReadsBack(n, canonical, visit, 0, p, i + |head|, depth + 1, strict);
      VisitLength(n, canonical);
    }
  }

  lemma VisitLength(n: Node, canonical: bool)
    requires n.Sequence? || (n.Mapping? && KeysOk(n))
    ensures |Visit(n, canonical)| == Width(n)
  {}

  lemma ContainerHeadReads(n: Node, p: seq<byte>, i: nat, f: Frame, depth: nat, strict: bool)
    requires (n.Sequence? || n.Mapping?) && Encodable(n) && Stands(p, i, ContainerHeadBytes(n))
    ensures ReadHead(p, i, Chain(n.tag).value, f.KeySlot(), depth, strict, false) ==
      if f.KeySlot() then Reject(Parse)
      else if depth >= MAX_DEPTH then Reject(Depth)
      else Begin(n.Mapping?, Items(Width(n)), TagText(n), i + |ContainerHeadBytes(n)|)
  {
    hide Chain, HeadBytes, ReadArg, ChainText;
    HeadReadsBack(p, i, if n.Sequence? then 4 else 5, if n.Sequence? then |n.kids| else Pairs(n), strict);
  }

  lemma {:induction false} BodyReadsBack(n: Node, canonical: bool, visit: seq<nat>, k: nat, p: seq<byte>, i: nat, depth: nat, strict: bool)
    requires VisitOk(n, visit) && k <= |visit| <= |n.kids| && Stands(p, i, ItemsBytes(n, canonical, visit[k..]))
    ensures BodyAgrees(ReadBody(p, i, Frame(Items(|visit| - k), k, n.Mapping?), depth, strict, false),
                       KidTrees(n, canonical, visit, k, strict, depth), n.Mapping?, i + |ItemsBytes(n, canonical, visit[k..])|)
    decreases n, 0, |visit| - k
  {
    hide ItemBytes, ItemsBytes, TreeOf, Encodable, ReadBody, ReadItem, CborFacts.Flat, CborFacts.FlatAll, Stands;
    var f := Frame(Items(|visit| - k), k, n.Mapping?);
    StandsInside(p, i, ItemsBytes(n, canonical, visit[k..]));
    BodyStep(p, i, f, depth, strict);
    if k == |visit| {
      NoItems(n, canonical, visit[k..]);
      CborFacts.NoKids(Close(n.Mapping?));
    } else {
      var kid := n.kids[visit[k]];
      var t := TreeOf(kid, canonical, f.KeySlot(), strict, depth);
      ItemsFront(n, canonical, visit[k..]);
      assert visit[k..][1..] == visit[k + 1..];
      StandsSplit(p, i, ItemBytes(kid, canonical), ItemsBytes(n, canonical, visit[k + 1..]));
      ItemReadsBack(kid, canonical, p, i, f, depth, strict);
      if t.Some? {
        BodyReadsBack(n, canonical, visit, k + 1, p, i + |ItemBytes(kid, canonical)|, depth, strict);
        var ts := KidTrees(n, canonical, visit, k + 1, strict, depth);
        if ts.Some? { CborFacts.Joined(CborFacts.Flat(t.value), t.value, ts.value, Close(n.Mapping?)); }
      }
    }
  }

  lemma StandsInside(p: seq<byte>, i: nat, s: seq<byte>)
    requires Stands(p, i, s)
    ensures i + |s| <= |p|
  {}

  /** One step of a definite body. */
  lemma BodyStep(p: seq<byte>, i: nat, f: Frame, depth: nat, strict: bool)
    requires i <= |p| && f.rem.Items?
    ensures ReadBody(p, i, f, depth, strict, false) ==
      if f.rem.n == 0 then Done([Close(f.isMap)], i)
      else
        var o := ReadItem(p, i, [], f, depth, strict, false);
        if o.Failed? then o else Prepend(o.events, ReadBody(p, o.next, f.Next(), depth, strict, false))
  {
    hide ReadItem;
  }

  lemma NoItems(n: Node, canonical: bool, visit: seq<nat>)
    requires VisitOk(n, visit) && visit == []
    ensures ItemsBytes(n, canonical, visit) == []
  {}

  /**
   * Decoding an encoded tree, for every tree the encoder accepts: the calls of TreeOf, all the bytes used; or
   * a refusal when TreeOf gives none.
   */
  lemma DecodeOfEncode(n: Node, canonical: bool, strict: bool)
    requires Encodable(n)
    ensures Agrees(Read(ItemBytes(n, canonical), strict), TreeOf(n, canonical, false, strict, 0), |ItemBytes(n, canonical)|)
  {
    hide ReadItem, ItemBytes, TreeOf, Encodable;
    var p := ItemBytes(n, canonical);
    assert p[0..|p|] == p;
    ItemReadsBack(n, canonical, p, 0, TOP, 0, strict);
    CborFacts.GuardNeverEarly(p, 0, [], TOP, 0, strict);
  }
}
