/**
 * Encoding a document tree: the bytes one item denotes, and the encoder's two passes,
 * the sizing pass building the canonical order of every map, the write pass consuming them.
 */
module CborEncode {
  import opened Bytes
  import opened CborRead
  import opened CborHeads
  import Floats
  import Utf8

  /**
   * A document node with what the encoder reads of it. A number whose text the number kernel converts to a
   * double is a FloatNode with that double's pattern. A mapping's kids alternate keys and values.
   */
  datatype Node =
    | Scalar(tag: seq<byte>, tagId: nat, value: seq<byte>)
    | FloatNode(tag: seq<byte>, bits: nat)
    | Sequence(tag: seq<byte>, kids: seq<Node>)
    | Mapping(tag: seq<byte>, kids: seq<Node>)
    | Alias(tag: seq<byte>)

  /** The sizes a document can have at all: lengths and counts in the machine's words, doubles in 64 bits. */
  predicate Storable(n: Node)
    decreases n
  {
    match n
    case Scalar(tag, id, v) => |v| < TWO_64
    case FloatNode(tag, bits) => bits < TWO_64
    case Sequence(tag, kids) => |kids| < TWO_64 && forall k :: 0 <= k < |kids| ==> Storable(kids[k])
    case Mapping(tag, kids) => |kids| < TWO_64 && forall k :: 0 <= k < |kids| ==> Storable(kids[k])
    case Alias(tag) => true
  }

  predicate NumberTag(id: nat) { id == TAG_INT || id == TAG_FLOAT }

  function Pairs(n: Node): nat
    requires n.Mapping?
  {
    |n.kids| / 2
  }

  /** How many children the item will hold: an unpaired last key would be dropped. */
  function Width(n: Node): (w: nat)
    requires n.Sequence? || n.Mapping?
    ensures w <= |n.kids|
  {
    if n.Sequence? then |n.kids| else 2 * (|n.kids| / 2)
  }

  /** What the sizing pass accepts: digit tags, numbers with a value, no alias. */
  predicate Supported(n: Node)
    decreases n
  {
    && Chain(n.tag).Some?
    && match n
       case Scalar(tag, id, v) => NumberTag(id) ==> IntScan(v).Some?
       case FloatNode(tag, bits) => true
       case Sequence(tag, kids) => forall k :: 0 <= k < |kids| ==> Supported(kids[k])
       case Mapping(tag, kids) => forall k :: 0 <= k < 2 * (|kids| / 2) ==> Supported(kids[k])
       case Alias(tag) => false
  }

  predicate Encodable(n: Node) { Storable(n) && Supported(n) }

  function Tags(n: Node): seq<byte>
    requires Chain(n.tag).Some?
  {
    TagHeads(Chain(n.tag).value)
  }

  // ---- keys ---------------------------------------------------------------------

  /** What cbor_encode_key accepts. */
  predicate KeyOk(n: Node) {
    Storable(n) && Chain(n.tag).Some? && (n.Scalar? && NumberTag(n.tagId) ==> IntScan(n.value).Some?)
  }

  /** cbor_encode_key without the tags: booleans, nulls and containers sort by their text. */
  function KeyBody(n: Node): seq<byte>
    requires KeyOk(n)
  {
    if n.FloatNode? then FloatBytes(n.bits)
    else if n.Scalar? && NumberTag(n.tagId) then IntBytes(IntScan(n.value).value)
    else TextBytes(n.tag != [], if n.Scalar? then n.value else [])
  }

  function KeyBytes(n: Node): seq<byte>
    requires KeyOk(n)
  {
    Tags(n) + KeyBody(n)
  }

  predicate KeysOk(n: Node)
    requires n.Mapping?
  {
    forall p :: 0 <= p < Pairs(n) ==> KeyOk(n.kids[2 * p])
  }

  lemma EncodableKid(n: Node, k: nat)
    requires (n.Sequence? || n.Mapping?) && Encodable(n) && k < Width(n)
    ensures Encodable(n.kids[k])
  {}

  lemma EncodableKeyOk(n: Node)
    requires Encodable(n)
    ensures KeyOk(n)
  {}

  lemma EncodableKeys(n: Node)
    requires n.Mapping? && Encodable(n)
    ensures KeysOk(n)
  {
    hide Encodable, KeyOk;
    forall p | 0 <= p < Pairs(n) ensures KeyOk(n.kids[2 * p]) {
      EncodableKid(n, 2 * p);
      EncodableKeyOk(n.kids[2 * p]);
    }
  }

  // ---- the canonical order ----------------------------------------------------------

  /** Bytewise lexicographic order, a proper prefix first. */
  predicate Less(a: seq<byte>, b: seq<byte>)
    decreases |a|
  {
    if b == [] then false
    else if a == [] then true
    else if a[0] != b[0] then a[0] < b[0]
    else Less(a[1..], b[1..])
  }

  /** The same by position: a proper prefix, or the smaller byte where they first differ. */
  predicate Below(a: seq<byte>, b: seq<byte>) {
    || (|a| < |b| && a == b[..|a|])
    || exists k :: 0 <= k < |a| && k < |b| && a[..k] == b[..k] && a[k] < b[k]
  }

  lemma BelowAt(a: seq<byte>, b: seq<byte>, k: nat)
    requires k <= |a| && k < |b| && a[..k] == b[..k] && (k == |a| || a[k] < b[k])
    ensures Below(a, b)
  {
    if k == |a| { assert a == a[..k]; }
  }

  /** Where two strings of bytes first differ decides. */
  lemma {:induction false} LessExactly(a: seq<byte>, b: seq<byte>)
    ensures Less(a, b) <==> Below(a, b)
    decreases |a|
  {
    if a != [] && b != [] && a[0] == b[0] {
      LessExactly(a[1..], b[1..]);
      if Below(a[1..], b[1..]) { BelowBehind(a, b); }
      if Below(a, b) { BelowFront(a, b); }
    } else if a != [] && b != [] && a[0] < b[0] {
      BelowAt(a, b, 0);
    }
  }

  lemma BelowBehind(a: seq<byte>, b: seq<byte>)
    requires a != [] && b != [] && a[0] == b[0] && Below(a[1..], b[1..])
    ensures Below(a, b)
  {
    var k := |a| - 1;
    if !(|a| < |b| && a[1..] == b[1..][..k]) {
      k :| 0 <= k < |a| - 1 && k < |b| - 1 && a[1..][..k] == b[1..][..k] && a[1..][k] < b[1..][k];
    }
    assert a[..k + 1] == [a[0]] + a[1..][..k] && b[..k + 1] == [b[0]] + b[1..][..k];
    BelowAt(a, b, k + 1);
  }

  lemma BelowFront(a: seq<byte>, b: seq<byte>)
    requires a != [] && b != [] && a[0] == b[0] && Below(a, b)
    ensures Below(a[1..], b[1..])
  {
    var k := |a|;
    if !(|a| < |b| && a == b[..|a|]) {
      k :| 0 <= k < |a| && k < |b| && a[..k] == b[..k] && a[k] < b[k];
      if k == 0 { assert false; }
    }
    assert a[1..][..k - 1] == a[..k][1..] && b[1..][..k - 1] == b[..k][1..];
    BelowAt(a[1..], b[1..], k - 1);
  }

  predicate Indices(order: seq<nat>, n: nat) {
    forall k :: 0 <= k < |order| ==> order[k] < n
  }

  /** One step of the insertion sort: cur moves left past every strictly greater key. */
  function Insert(keys: seq<seq<byte>>, order: seq<nat>, cur: nat): (r: seq<nat>)
    requires Indices(order, |keys|) && cur < |keys|
    ensures |r| == |order| + 1 && Indices(r, |keys|)
    decreases |order|
  {
    var last := |order| - 1;
    if order == [] || !Less(keys[cur], keys[order[last]]) then order + [cur]
    else Insert(keys, order[..last], cur) + [order[last]]
  }

  /** The order of the first n keys. */
  function OrderOf(keys: seq<seq<byte>>, n: nat): (r: seq<nat>)
    requires n <= |keys|
    ensures |r| == n && Indices(r, |keys|)
  {
    if n == 0 then [] else Insert(keys, OrderOf(keys, n - 1), n - 1)
  }

  lemma {:induction false} InsertKeeps(keys: seq<seq<byte>>, order: seq<nat>, cur: nat, x: nat)
    requires Indices(order, |keys|) && cur < |keys| && (x in order || x == cur)
    ensures x in Insert(keys, order, cur)
    decreases |order|
  {
    var last := |order| - 1;
    if order != [] && Less(keys[cur], keys[order[last]]) {
      if x != order[last] {
        assert x in order[..last] || x == cur;
        InsertKeeps(keys, order[..last], cur, x);
      }
    }
  }

  /** No index is lost. */
  lemma {:induction false} OrderHasAll(keys: seq<seq<byte>>, n: nat, x: nat)
    requires x < n <= |keys|
    ensures x in OrderOf(keys, n)
  {
    if x < n - 1 { OrderHasAll(keys, n - 1, x); }
    InsertKeeps(keys, OrderOf(keys, n - 1), n - 1, x);
  }

  function Iota(n: nat): (r: seq<nat>)
    ensures |r| == n && forall k :: 0 <= k < n ==> r[k] == k
  {
    seq(n, k => k)
  }

  function Keys(n: Node): (ks: seq<seq<byte>>)
    requires n.Mapping? && KeysOk(n)
    ensures |ks| == Pairs(n)
  {
    seq(Pairs(n), p requires 0 <= p < Pairs(n) => KeyBytes(n.kids[2 * p]))
  }

  /** The order pairs are written in. */
  function PairOrder(n: Node, canonical: bool): (order: seq<nat>)
    requires n.Mapping? && (canonical ==> KeysOk(n))
    ensures |order| == Pairs(n) && Indices(order, Pairs(n))
  {
    if canonical then OrderOf(Keys(n), Pairs(n)) else Iota(Pairs(n))
  }

  function KeysAndValues(order: seq<nat>): (r: seq<nat>)
    ensures |r| == 2 * |order|
    ensures forall p :: 0 <= p < |order| ==> r[2 * p] == 2 * order[p] && r[2 * p + 1] == 2 * order[p] + 1
  {
    if order == [] then []
    else KeysAndValues(order[..|order| - 1]) + [2 * order[|order| - 1], 2 * order[|order| - 1] + 1]
  }

  lemma VisitInside(order: seq<nat>, n: nat)
    requires Indices(order, n)
    ensures Indices(KeysAndValues(order), 2 * n)
  {
    var r := KeysAndValues(order);
    forall k | 0 <= k < |r| ensures r[k] < 2 * n {
      assert r[2 * (k / 2)] == 2 * order[k / 2] && r[2 * (k / 2) + 1] == 2 * order[k / 2] + 1;
    }
  }

  /** The children in the order both passes visit them. */
  function Visit(n: Node, canonical: bool): (r: seq<nat>)
    requires n.Sequence? || (n.Mapping? && (canonical ==> KeysOk(n)))
    ensures |r| == Width(n) && Indices(r, Width(n))
  {
    if n.Sequence? then Iota(|n.kids|)
    else
      VisitInside(PairOrder(n, canonical), Pairs(n));
      KeysAndValues(PairOrder(n, canonical))
  }

  /** Every child the item keeps is visited. */
  lemma VisitHits(n: Node, canonical: bool, i: nat) returns (k: nat)
    requires (n.Sequence? || (n.Mapping? && (canonical ==> KeysOk(n)))) && i < Width(n)
    ensures k < |Visit(n, canonical)| && Visit(n, canonical)[k] == i
  {
    hide KeysOk, OrderOf, KeysAndValues, Keys;
    k := i;
    if n.Mapping? {
      var p := i / 2;
      if canonical {
        OrderHasAll(Keys(n), Pairs(n), i / 2);
        p :| 0 <= p < Pairs(n) && PairOrder(n, canonical)[p] == i / 2;
      }
      k := 2 * p + i % 2;
      PairVisited(PairOrder(n, canonical), p);
    }
  }

  lemma PairVisited(order: seq<nat>, p: nat)
    requires p < |order|
    ensures |KeysAndValues(order)| == 2 * |order|
    ensures KeysAndValues(order)[2 * p] == 2 * order[p] && KeysAndValues(order)[2 * p + 1] == 2 * order[p] + 1
  {}

  predicate VisitOk(n: Node, visit: seq<nat>) {
    (n.Sequence? || n.Mapping?) && forall k :: 0 <= k < |visit| ==> visit[k] < |n.kids| && Encodable(n.kids[visit[k]])
  }

  lemma EncodableVisit(n: Node, canonical: bool)
    requires (n.Sequence? || n.Mapping?) && Encodable(n)
    ensures (n.Mapping? ==> KeysOk(n)) && VisitOk(n, Visit(n, canonical))
  {
    hide Encodable, KeysOk;
    if n.Mapping? { EncodableKeys(n); }
    var visit := Visit(n, canonical);
    forall k | 0 <= k < |visit| ensures Encodable(n.kids[visit[k]]) {
      EncodableKid(n, visit[k]);
    }
  }

  // ---- the item's bytes -----------------------------------------------------------------

  function ScalarBytes(n: Node): seq<byte>
    requires Encodable(n) && (n.Scalar? || n.FloatNode?)
  {
    match n
    case FloatNode(tag, bits) => FloatBytes(bits)
    case Scalar(tag, id, v) =>
      if NumberTag(id) then IntBytes(IntScan(v).value)
      else if id == TAG_BOOL then [if BoolValue(v) then 0xF5 else 0xF4]
      else if id == TAG_NULL then [0xF6]
      else TextBytes(tag != [], v)
  }

  function ContainerHeadBytes(n: Node): seq<byte>
    requires (n.Sequence? || n.Mapping?) && Storable(n)
  {
    if n.Sequence? then HeadBytes(4, |n.kids|) else HeadBytes(5, Pairs(n))
  }

  function ItemBytes(n: Node, canonical: bool): seq<byte>
    requires Encodable(n)
    decreases n, 1, 0
  {
    if n.Sequence? || n.Mapping? then
      EncodableVisit(n, canonical);
      Tags(n) + ContainerHeadBytes(n) + ItemsBytes(n, canonical, Visit(n, canonical))
    else Tags(n) + ScalarBytes(n)
  }

  function ItemsBytes(n: Node, canonical: bool, visit: seq<nat>): seq<byte>
    requires VisitOk(n, visit)
    decreases n, 0, |visit|
  {
    if visit == [] then []
    else
      var last := visit[|visit| - 1];
      ItemsBytes(n, canonical, visit[..|visit| - 1]) + ItemBytes(n.kids[last], canonical)
  }

  // ---- the canonical preparations ----------------------------------------------------------

  /** What the sizing pass keeps of a map for the write pass. */
  datatype Prep = Prep(child: seq<Node>, order: seq<nat>)

  function PrepOf(n: Node): Prep
    requires n.Mapping? && KeysOk(n)
  {
    Prep(n.kids[..Width(n)], PairOrder(n, true))
  }

  /** The preparations of a tree, in the order the maps are met. */
  function Preps(n: Node, canonical: bool): seq<Prep>
    requires Encodable(n)
    decreases n, 1, 0
  {
    if !canonical || !(n.Sequence? || n.Mapping?) then []
    else
      EncodableVisit(n, canonical);
      OwnPrep(n, canonical) + KidPreps(n, canonical, Visit(n, canonical))
  }

  function OwnPrep(n: Node, canonical: bool): seq<Prep>
    requires n.Mapping? && canonical ==> KeysOk(n)
  {
    if n.Mapping? && canonical then [PrepOf(n)] else []
  }

  function KidPreps(n: Node, canonical: bool, visit: seq<nat>): seq<Prep>
    requires VisitOk(n, visit)
    decreases n, 0, |visit|
  {
    if visit == [] then []
    else
      var last := visit[|visit| - 1];
      KidPreps(n, canonical, visit[..|visit| - 1]) + Preps(n.kids[last], canonical)
  }

  lemma {:induction false} NoPreps(n: Node, visit: seq<nat>)
    requires VisitOk(n, visit)
    ensures KidPreps(n, false, visit) == []
    decreases |visit|
  {
    if visit != [] { NoPreps(n, visit[..|visit| - 1]); }
  }

  lemma PrepsSplit(n: Node, canonical: bool)
    requires Encodable(n) && (n.Sequence? || n.Mapping?)
    ensures (n.Mapping? && canonical ==> KeysOk(n)) && VisitOk(n, Visit(n, canonical))
    ensures Preps(n, canonical) == OwnPrep(n, canonical) + KidPreps(n, canonical, Visit(n, canonical))
    ensures n.Sequence? ==> Preps(n, canonical) == KidPreps(n, canonical, Visit(n, canonical))
  {
    hide Visit, Encodable, KeysOk, VisitOk, PrepOf;
    EncodableVisit(n, canonical);
    if !canonical { NoPreps(n, Visit(n, canonical)); }
  }

  /** One more child. */
  lemma {:induction false} ItemsStep(n: Node, canonical: bool, visit: seq<nat>, k: nat)
    requires VisitOk(n, visit) && k < |visit|
    ensures ItemsBytes(n, canonical, visit[..k + 1]) == ItemsBytes(n, canonical, visit[..k]) + ItemBytes(n.kids[visit[k]], canonical)
    ensures KidPreps(n, canonical, visit[..k + 1]) == KidPreps(n, canonical, visit[..k]) + Preps(n.kids[visit[k]], canonical)
  {
    assert visit[..k + 1][..k] == visit[..k];
  }

  lemma {:induction false} ItemsPrefix(n: Node, canonical: bool, visit: seq<nat>, k: nat)
    requires VisitOk(n, visit) && k <= |visit|
    ensures ItemsBytes(n, canonical, visit[..k]) <= ItemsBytes(n, canonical, visit)
    ensures KidPreps(n, canonical, visit[..k]) <= KidPreps(n, canonical, visit)
    decreases |visit|
  {
    if k < |visit| {
      assert visit[..|visit| - 1][..k] == visit[..k];
      ItemsPrefix(n, canonical, visit[..|visit| - 1], k);
    } else {
      assert visit[..k] == visit;
    }
  }
}
