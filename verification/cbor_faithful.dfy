/** Which trees come back from their own encoding unchanged: exactly the faithful ones. */
module CborFaithful {
  import opened Wrappers
  import opened Bytes
  import opened CborRead
  import opened CborHeads
  import opened CborEncode
  import opened CborCanonical
  import opened CborRoundTrip
  import CborFacts
  import Floats
  import Utf8

  // ---- the node a call makes -------------------------------------------------------

  const QUIET_NAN: nat := 0x7FF8_0000_0000_0000

  /** A NaN is rendered without sign or payload. */
  function Quiet(bits: nat): nat {
    if Floats.IsNaN(bits) then QUIET_NAN else bits
  }

  /** The double a wire number denotes; integers beyond int64 are rounded by the hardware and have no pattern here. */
  function DoubleOf(n: Number): Option<nat> {
    match n
    case Half(h) =>
      if !Floats.IsHalf(h) then None
      else if Floats.HalfFinite(h) || Floats.HalfMantissa(h) == 0 then Some(Floats.WidenHalf(h)) else Some(QUIET_NAN)
    case Single(w) =>
      if !Floats.IsSingle(w) then None
      else if Floats.SingleFinite(w) then Some(Floats.WidenSingle(w))
      else if Floats.SingleMantissa(w) == 0 then Some(Floats.Pack(Floats.SingleNegative(w), 2047, 0)) else Some(QUIET_NAN)
    case Double(d) => if Floats.IsDouble(d) then Some(Quiet(d)) else None
    case Beyond(_, _) => None
  }

  /** The DOM sink's node for a scalar call. */
  function NodeOfEvent(e: Event): Option<Node> {
    match e
    case Text(text, tagId, _, tag) => Some(Scalar(tag, tagId, text))
    case Int(negative, mag, _, tag) => Some(Scalar(tag, TAG_INT, SignedDecimal(negative, mag)))
    case Float(number, _, tag) =>
      if DoubleOf(number).Some? then Some(FloatNode(tag, DoubleOf(number).value)) else None
    case Str(s, _, _, tag) => Some(Scalar(tag, TAG_STR, s))
    case ByteStr(s, _, _, tag) => Some(Scalar(tag, TAG_STR, s))
    case _ => None
  }

  function NodeOf(t: Tree): Option<Node>
    decreases t
  {
    match t
    case Scalar(e) => NodeOfEvent(e)
    case Branch(isMap, _, tag, kids) =>
      match NodesOf(kids)
      case None => None
      case Some(ns) => if isMap && |ns| % 2 == 1 then None else Some(if isMap then Mapping(tag, ns) else Sequence(tag, ns))
  }

  function NodesOf(ts: seq<Tree>): Option<seq<Node>>
    decreases ts
  {
    if ts == [] then Some([])
    else
      match NodeOf(ts[0])
      case None => None
      case Some(n) =>
        match NodesOf(ts[1..])
        case None => None
        case Some(ns) => Some([n] + ns)
  }

  // ---- faithful trees -----------------------------------------------------------------

  /** The tag text is spelled as the decoder spells it: no leading zeros. */
  predicate CanonicalTag(tag: seq<byte>) {
    Chain(tag).Some? && ChainText(Chain(tag).value) == tag
  }

  /** Decimal text of an int64 without leading zeros or a minus before zero. */
  predicate CanonicalInt(v: seq<byte>) {
    IntScan(v).Some? && v == SignedDecimal(IntScan(v).value < 0, if IntScan(v).value < 0 then 0 - IntScan(v).value else IntScan(v).value)
  }

  /** An untagged word that names a simple value must be that value's own spelling, and not a literal's number. */
  predicate CanonicalWord(v: seq<byte>) {
    SimpleOf(v).Some? ==>
      var s := SimpleOf(v).value;
      if s == 23 then v == UNDEFINED else !(20 <= s < 23) && v == SimpleText(s)
  }

  predicate FaithfulScalar(n: Node, key: bool, strict: bool) {
    match n
    case FloatNode(_, bits) => (Floats.IsNaN(bits) ==> bits == QUIET_NAN) && !(key && strict)
    case Scalar(tag, id, v) =>
      if id == TAG_INT then CanonicalInt(v) && !key
      else if id == TAG_BOOL then v == (if BoolValue(v) then Ascii("true") else Ascii("false")) && !key
      else if id == TAG_NULL then v == Ascii("null") && !key
      else id == TAG_STR && (key ==> Utf8.Valid(v)) && (tag == [] ==> CanonicalWord(v))
    case _ => false
  }

  /** Comes back as it is: as a key or not, at that depth. */
  predicate Faithful(n: Node, key: bool, strict: bool, depth: nat)
    decreases n
  {
    && CanonicalTag(n.tag)
    && if n.Sequence? || n.Mapping? then
         && !key && depth < MAX_DEPTH
         && forall k :: 0 <= k < Width(n) ==> Faithful(n.kids[k], n.Mapping? && k % 2 == 0, strict, depth + 1)
       else FaithfulScalar(n, key, strict)
  }

  // ---- scalars ---------------------------------------------------------------------------

  lemma {:induction false} NumberBack(bits: nat)
    requires bits < TWO_64
    ensures DoubleOf(WireNumber(bits)) == Some(Quiet(bits))
  {
    hide Floats.DoubleToHalf, Floats.Narrow, Floats.WidenHalf, Floats.WidenSingle, Floats.FitsSingle;
    if Floats.IsNaN(bits) {
      NaNHalf(bits);
    } else if FloatWidth(bits) == 4 {
      Floats.NarrowWidens(bits);
    }
  }

  lemma NaNHalf(bits: nat)
    requires bits < TWO_64 && Floats.IsNaN(bits)
    ensures var h := Floats.DoubleToHalf(bits);
      Floats.IsHalf(h) && !Floats.HalfFinite(h) && Floats.HalfMantissa(h) != 0
  {}

  lemma {:induction false} HexAscii(s: seq<byte>)
    ensures forall k :: 0 <= k < |HexText(s)| ==> HexText(s)[k] < 0x80
    decreases |s|
  {
    if s != [] { HexAscii(s[..|s| - 1]); }
  }

  /** A byte-string key is rendered as ASCII, so text that is not UTF-8 cannot come back. */
  lemma {:induction false} HexKeyDiffers(v: seq<byte>)
    requires !Utf8.Valid(v)
    ensures HexKey(v) != v
  {
    hide Utf8.Valid, HexText;
    HexAscii(if |v| > 22 then v[..22] else v);
    Utf8.AsciiValid(HexKey(v));
  }

  lemma {:induction false} IntBack(i: int, key: bool, strict: bool, tag: seq<byte>)
    requires 0 - INT64_MAX - 1 <= i <= INT64_MAX
    ensures var e := IntEvent(i, key, strict, tag);
      if key then e.Some? ==> NodeOfEvent(e.value).Some? && NodeOfEvent(e.value).value.tagId == TAG_STR
      else e == Some(Int(i < 0, if i < 0 then 0 - i else i, false, tag))
  {}

  /** The text of a simple value, and the tag id it carries outside a key. */
  lemma {:induction false} WordBack(v: seq<byte>, key: bool, tag: seq<byte>)
    requires SimpleOf(v).Some?
    ensures var e := SimpleEvent(SimpleOf(v).value, key, tag);
      e.Text? && e.tag == tag && ((e.tagId == TAG_STR && e.text == v) <==> CanonicalWord(v))
  {
    hide DigitsValue;
    var s := SimpleOf(v).value;
    if 20 <= s < 23 { WordsAreLong(v); }
  }

  lemma WordsAreLong(v: seq<byte>)
    requires SimpleOf(v).Some?
    ensures v == UNDEFINED || |v| > 9
  {}

  predicate BackAs(e: Option<Event>, n: Node) {
    e.Some? && NodeOfEvent(e.value) == Some(n)
  }

  lemma {:induction false} TextBack(tag: seq<byte>, tagText: seq<byte>, v: seq<byte>, key: bool, strict: bool)
    ensures BackAs(TextEvent(tag != [], v, key, strict, tagText), Scalar(tag, TAG_STR, v)) <==>
      tagText == tag && (key ==> Utf8.Valid(v)) && (tag == [] ==> CanonicalWord(v))
  {
    hide Utf8.Valid, SimpleOf, HexKey, CanonicalWord, SimpleEvent;
    if tag == [] && SimpleOf(v).Some? {
      WordBack(v, key, tagText);
      WordIsText(v);
    } else {
      NotAWord(v);
      if !Utf8.Valid(v) { HexKeyDiffers(v); }
    }
  }

  lemma NotAWord(v: seq<byte>)
    ensures SimpleOf(v).None? ==> CanonicalWord(v)
  {}

  /** A scalar comes back as itself exactly when it is faithful. */
  lemma {:induction false} ScalarBack(n: Node, key: bool, strict: bool)
    requires Encodable(n) && (n.Scalar? || n.FloatNode?)
    ensures BackAs(ScalarEvent(n, key, strict), n) <==> CanonicalTag(n.tag) && FaithfulScalar(n, key, strict)
  {
    hide Chain, IntScan, ChainText, TextEvent, IntEvent, DoubleOf, WireNumber, Utf8.Valid, CanonicalWord, Quiet;
    var tag := TagText(n);
    if n.FloatNode? {
      NumberBack(n.bits);
      QuietSame(n.bits);
    } else if NumberTag(n.tagId) {
      IntBack(IntScan(n.value).value, key, strict, tag);
    } else if n.tagId != TAG_BOOL && n.tagId != TAG_NULL {
      if n.tagId == TAG_STR {
        TextBack(n.tag, tag, n.value, key, strict);
      } else {
        TextIsStr(n.tag != [], n.value, key, strict, tag);
      }
    }
  }

  lemma QuietSame(bits: nat)
    ensures Quiet(bits) == bits <==> (Floats.IsNaN(bits) ==> bits == QUIET_NAN)
  {}

  predicate TextTagged(e: Option<Event>) {
    e.Some? && NodeOfEvent(e.value).Some? ==>
      var n := NodeOfEvent(e.value).value;
      n.Scalar? && (n.tagId == TAG_STR || n.tagId == TAG_BOOL || n.tagId == TAG_NULL)
  }

  /** Text items never carry a tag id of their own but the literals'. */
  lemma TextIsStr(tagged: bool, v: seq<byte>, key: bool, strict: bool, tag: seq<byte>)
    ensures TextTagged(TextEvent(tagged, v, key, strict, tag))
  {
    hide SimpleOf, Utf8.Valid, HexKey;
  }

  // ---- trees -----------------------------------------------------------------------------

  /** The rest of a container's children, arranged. */
  function ArrangedFrom(n: Node, canonical: bool, visit: seq<nat>, k: nat): (r: seq<Node>)
    requires VisitOk(n, visit) && k <= |visit|
    ensures |r| == |visit| - k
    decreases |visit| - k
  {
    if k == |visit| then [] else [Arranged(n.kids[visit[k]], canonical)] + ArrangedFrom(n, canonical, visit, k + 1)
  }

  lemma {:induction false} ArrangedAt(n: Node, canonical: bool, visit: seq<nat>, k: nat, j: nat)
    requires VisitOk(n, visit) && k <= j < |visit|
    ensures ArrangedFrom(n, canonical, visit, k)[j - k] == Arranged(n.kids[visit[j]], canonical)
    decreases j - k
  {
    hide Arranged, Encodable;
    if k < j { ArrangedAt(n, canonical, visit, k + 1, j); }
  }

  predicate FaithfulFrom(n: Node, visit: seq<nat>, k: nat, strict: bool, depth: nat)
    requires VisitOk(n, visit) && k <= |visit|
  {
    forall j :: k <= j < |visit| ==> Faithful(n.kids[visit[j]], n.Mapping? && j % 2 == 0, strict, depth)
  }

  predicate TreeIs(t: Option<Tree>, n: Node) { t.Some? && NodeOf(t.value) == Some(n) }

  predicate TreesAre(ts: Option<seq<Tree>>, ns: seq<Node>) { ts.Some? && NodesOf(ts.value) == Some(ns) }

  lemma NodesFront(t: Tree, ts: seq<Tree>)
    ensures NodesOf([t] + ts) ==
      if NodeOf(t).Some? && NodesOf(ts).Some? then Some([NodeOf(t).value] + NodesOf(ts).value) else None
  {
    assert ([t] + ts)[1..] == ts;
  }

  lemma ConsSame(a: Node, as': seq<Node>, b: Node, bs: seq<Node>)
    ensures [a] + as' == [b] + bs <==> a == b && as' == bs
  {
    if [a] + as' == [b] + bs { assert ([a] + as')[0] == a && ([a] + as')[1..] == as' && ([b] + bs)[1..] == bs; }
  }

  lemma {:induction false} KidsBack(n: Node, canonical: bool, visit: seq<nat>, k: nat, strict: bool, depth: nat)
    requires VisitOk(n, visit) && k <= |visit|
    ensures TreesAre(KidTrees(n, canonical, visit, k, strict, depth), ArrangedFrom(n, canonical, visit, k)) <==>
            FaithfulFrom(n, visit, k, strict, depth)
    decreases n, 0, |visit| - k
  {
    hide TreeOf, NodeOf, Arranged, Faithful, Encodable;
    if k < |visit| {
      var kid, key := n.kids[visit[k]], n.Mapping? && k % 2 == 0;
      TreeBack(kid, canonical, key, strict, depth);
      KidsBack(n, canonical, visit, k + 1, strict, depth);
      assert FaithfulFrom(n, visit, k, strict, depth) <==>
        Faithful(kid, key, strict, depth) && FaithfulFrom(n, visit, k + 1, strict, depth);
      var t, ts := TreeOf(kid, canonical, key, strict, depth), KidTrees(n, canonical, visit, k + 1, strict, depth);
      if t.Some? && ts.Some? {
        NodesFront(t.value, ts.value);
        if NodeOf(t.value).Some? && NodesOf(ts.value).Some? {
          ConsSame(NodeOf(t.value).value, NodesOf(ts.value).value, Arranged(kid, canonical),
                   ArrangedFrom(n, canonical, visit, k + 1));
        }
      }
    }
  }

  /** Visiting in order or sorted, the children meet the same demands. */
  lemma FaithfulVisit(n: Node, canonical: bool, strict: bool, depth: nat)
    requires (n.Sequence? || (n.Mapping? && KeysOk(n))) && VisitOk(n, Visit(n, canonical))
    ensures FaithfulFrom(n, Visit(n, canonical), 0, strict, depth) <==>
      forall k :: 0 <= k < Width(n) ==> Faithful(n.kids[k], n.Mapping? && k % 2 == 0, strict, depth)
  {
    hide Faithful, KeysOk, Visit, VisitOk;
    var visit := Visit(n, canonical);
    forall j | 0 <= j < |visit| ensures n.Mapping? ==> visit[j] % 2 == j % 2 {
      if n.Mapping? { VisitParity(n, canonical, j); }
    }
    if FaithfulFrom(n, visit, 0, strict, depth) {
      forall k | 0 <= k < Width(n) ensures Faithful(n.kids[k], n.Mapping? && k % 2 == 0, strict, depth) {
        var j := VisitHits(n, canonical, k);
      }
    }
  }

  lemma VisitParity(n: Node, canonical: bool, j: nat)
    requires n.Mapping? && KeysOk(n) && j < |Visit(n, canonical)|
    ensures Visit(n, canonical)[j] % 2 == j % 2
  {
    hide KeysOk, KeysAndValues, PairOrder;
    PairParity(PairOrder(n, canonical), j);
  }

  lemma PairParity(order: seq<nat>, j: nat)
    requires j < 2 * |order|
    ensures KeysAndValues(order)[j] % 2 == j % 2
  {
    hide KeysAndValues;
    var p := j / 2;
    PairVisited(order, p);
    Parity(order[p]);
    assert j == 2 * p || j == 2 * p + 1;
  }

  lemma Parity(x: nat)
    ensures 2 * x % 2 == 0 && (2 * x + 1) % 2 == 1
  {}

  /** A tree the encoder accepts comes back as itself, its pairs as they were written, exactly when it is faithful. */
  lemma {:induction false} TreeBack(n: Node, canonical: bool, key: bool, strict: bool, depth: nat)
    requires Encodable(n)
    ensures TreeIs(TreeOf(n, canonical, key, strict, depth), Arranged(n, canonical)) <==> Faithful(n, key, strict, depth)
    decreases n, 1, 0
  {
    hide Encodable, ScalarEvent, FaithfulScalar, Chain, ChainText, Visit, KidTrees, KeysOk, VisitOk;
    EncodableTag(n);
    if n.Sequence? || n.Mapping? {
      EncodableVisit(n, canonical);
      var visit := Visit(n, canonical);
      KidsBack(n, canonical, visit, 0, strict, depth + 1);
      FaithfulVisit(n, canonical, strict, depth + 1);
      ArrangedKids(n, canonical);
    } else {
      ScalarBack(n, key, strict);
    }
  }

  lemma ArrangedKids(n: Node, canonical: bool)
    requires (n.Sequence? || n.Mapping?) && Encodable(n)
    ensures (n.Mapping? ==> KeysOk(n)) && VisitOk(n, Visit(n, canonical))
    ensures Arranged(n, canonical).kids == ArrangedFrom(n, canonical, Visit(n, canonical), 0)
  {
    hide Encodable, Visit, VisitOk, ArrangedFrom;
    EncodableVisit(n, canonical);
    var visit := Visit(n, canonical);
    forall j | 0 <= j < |visit| ensures Arranged(n, canonical).kids[j] == ArrangedFrom(n, canonical, visit, 0)[j] {
      ArrangedAt(n, canonical, visit, 0, j);
    }
    VisitCount(n, canonical);
  }

  lemma VisitCount(n: Node, canonical: bool)
    requires n.Sequence? || (n.Mapping? && KeysOk(n))
    ensures |Visit(n, canonical)| == Width(n)
  {}
}
