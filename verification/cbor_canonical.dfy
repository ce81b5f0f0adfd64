/** Canonical mode: what the order of map keys is, and what the bytes no longer depend on. */
module CborCanonical {
  import opened Wrappers
  import opened Bytes
  import opened CborRead
  import opened CborHeads
  import opened CborEncode
  import Utf8

  // ---- the order on encoded keys ---------------------------------------------------

  lemma {:induction false} LessIrreflexive(a: seq<byte>)
    ensures !Less(a, a)
    decreases |a|
  {
    if a != [] { LessIrreflexive(a[1..]); }
  }

  lemma {:induction false} LessTransitive(a: seq<byte>, b: seq<byte>, c: seq<byte>)
    requires Less(a, b) && Less(b, c)
    ensures Less(a, c)
    decreases |a|
  {
    if a != [] && a[0] == b[0] && b[0] == c[0] { LessTransitive(a[1..], b[1..], c[1..]); }
  }

  lemma {:induction false} LessTotal(a: seq<byte>, b: seq<byte>)
    ensures Less(a, b) || a == b || Less(b, a)
    decreases |a|
  {
    if a != [] && b != [] && a[0] == b[0] {
      LessTotal(a[1..], b[1..]);
      assert a == [a[0]] + a[1..] && b == [b[0]] + b[1..];
    }
  }

  /** Sorted by key, ties by position: what a stable sort must establish. */
  predicate Before(keys: seq<seq<byte>>, a: nat, b: nat)
    requires a < |keys| && b < |keys|
  {
    Less(keys[a], keys[b]) || (keys[a] == keys[b] && a < b)
  }

  predicate Ascending(keys: seq<seq<byte>>, order: seq<nat>)
    requires Indices(order, |keys|)
  {
    forall i, j :: 0 <= i < j < |order| ==> Before(keys, order[i], order[j])
  }

  lemma {:induction false} BeforeTransitive(keys: seq<seq<byte>>, a: nat, b: nat, c: nat)
    requires a < |keys| && b < |keys| && c < |keys| && Before(keys, a, b) && Before(keys, b, c)
    ensures Before(keys, a, c)
  {
    if Less(keys[a], keys[b]) && Less(keys[b], keys[c]) { LessTransitive(keys[a], keys[b], keys[c]); }
  }

  lemma {:induction false} BeforeAsymmetric(keys: seq<seq<byte>>, a: nat, b: nat)
    requires a < |keys| && b < |keys| && Before(keys, a, b)
    ensures !Before(keys, b, a)
  {
    LessIrreflexive(keys[a]);
    if Less(keys[a], keys[b]) && Less(keys[b], keys[a]) { LessTransitive(keys[a], keys[b], keys[a]); }
  }

  lemma {:induction false} InsertOnly(keys: seq<seq<byte>>, order: seq<nat>, cur: nat, x: nat)
    requires Indices(order, |keys|) && cur < |keys| && x in Insert(keys, order, cur)
    ensures x in order || x == cur
    decreases |order|
  {
    hide Less;
    var last := |order| - 1;
    if order != [] && Less(keys[cur], keys[order[last]]) && x != order[last] {
      InsertOnly(keys, order[..last], cur, x);
    }
  }

  /** Inserting the next index keeps the order ascending. */
  lemma {:induction false} InsertAscends(keys: seq<seq<byte>>, order: seq<nat>, cur: nat)
    requires Indices(order, |keys|) && cur < |keys| && Ascending(keys, order)
    requires forall k :: 0 <= k < |order| ==> order[k] < cur
    ensures Ascending(keys, Insert(keys, order, cur))
    decreases |order|
  {
    hide Less;
    var last := |order| - 1;
    var r := Insert(keys, order, cur);
    if order == [] {
    } else if Less(keys[cur], keys[order[last]]) {
      InsertAscends(keys, order[..last], cur);
      forall i | 0 <= i < last + 1 ensures Before(keys, r[i], order[last]) {
        InsertOnly(keys, order[..last], cur, r[i]);
      }
    } else {
      LessTotal(keys[cur], keys[order[last]]);
      assert Before(keys, order[last], cur);
      forall i | 0 <= i < last ensures Before(keys, order[i], cur) {
        BeforeTransitive(keys, order[i], order[last], cur);
      }
    }
  }

  lemma {:induction false} OrderBelow(keys: seq<seq<byte>>, n: nat)
    requires n <= |keys|
    ensures Indices(OrderOf(keys, n), n)
  {
    hide Insert;
    if n > 0 {
      OrderBelow(keys, n - 1);
      forall k | 0 <= k < n ensures OrderOf(keys, n)[k] < n {
        InsertOnly(keys, OrderOf(keys, n - 1), n - 1, OrderOf(keys, n)[k]);
      }
    }
  }

  /** The insertion sort yields a permutation, sorted bytewise on the encoded keys, equal keys in place order. */
  lemma {:induction false} OrderIsStable(keys: seq<seq<byte>>, n: nat)
    requires n <= |keys|
    ensures Ascending(keys, OrderOf(keys, n)) && forall x: nat :: x < n ==> x in OrderOf(keys, n)
  {
    hide Before, Insert;
    if n > 0 {
      OrderIsStable(keys, n - 1);
      OrderBelow(keys, n - 1);
      InsertAscends(keys, OrderOf(keys, n - 1), n - 1);
    }
    forall x: nat | x < n ensures x in OrderOf(keys, n) { OrderHasAll(keys, n, x); }
  }

  lemma SomeElement(b: seq<nat>)
    ensures b != [] ==> exists x :: x in b
  {
    if b != [] { assert b[0] in b; }
  }

  /** There is only one such order. */
  lemma {:induction false} AscendingUnique(keys: seq<seq<byte>>, a: seq<nat>, b: seq<nat>)
    requires Indices(a, |keys|) && Indices(b, |keys|) && Ascending(keys, a) && Ascending(keys, b)
    requires forall x :: x in a <==> x in b
    ensures a == b
    decreases |a|
  {
    hide Before;
    if a == [] {
      SomeElement(b);
    } else {
      assert a[0] in b;
      assert b != [];
      assert b[0] in a;
      if a[0] != b[0] {
        var i :| 0 <= i < |a| && a[i] == b[0];
        var j :| 0 <= j < |b| && b[j] == a[0];
        BeforeAsymmetric(keys, a[0], a[i]);
      }
      forall x ensures x in a[1..] <==> x in b[1..] {
        NotAgain(keys, a, x);
        NotAgain(keys, b, x);
      }
      AscendingUnique(keys, a[1..], b[1..]);
      assert a == [a[0]] + a[1..] && b == [b[0]] + b[1..];
    }
  }

  lemma {:induction false} NotAgain(keys: seq<seq<byte>>, a: seq<nat>, x: nat)
    requires Indices(a, |keys|) && Ascending(keys, a) && a != []
    ensures x in a[1..] <==> x in a && x != a[0]
  {
    hide Before;
    if x in a[1..] {
      var i :| 0 <= i < |a| - 1 && a[1..][i] == x;
      if x == a[0] { BeforeAsymmetric(keys, a[0], a[i + 1]); }
    }
  }

  // ---- order-independence ---------------------------------------------------------------

  predicate Permutation(pi: seq<nat>, n: nat) {
    |pi| == n && Indices(pi, n) && forall x: nat :: x < n ==> x in pi
  }

  /** The same document up to the order of pairs, in its maps at every depth. */
  ghost predicate Reordered(a: Node, b: Node)
    decreases a
  {
    match (a, b)
    case (Sequence(tag, kids), Sequence(tag', kids')) =>
      tag == tag' && |kids| == |kids'| && forall k :: 0 <= k < |kids| ==> Reordered(kids[k], kids'[k])
    case (Mapping(tag, kids), Mapping(tag', kids')) =>
      tag == tag' && |kids| == |kids'| && exists pi :: Permutation(pi, |kids| / 2) && PairsMatch(a, b, pi)
    case _ => a == b
  }

  ghost predicate PairsMatch(a: Node, b: Node, pi: seq<nat>)
    requires a.Mapping? && b.Mapping? && |a.kids| == |b.kids| && Permutation(pi, |a.kids| / 2)
    decreases a, 0
  {
    forall p :: 0 <= p < |a.kids| / 2 ==>
      Reordered(a.kids[2 * p], b.kids[2 * pi[p]]) && Reordered(a.kids[2 * p + 1], b.kids[2 * pi[p] + 1])
  }

  predicate AllDistinct(keys: seq<seq<byte>>) {
    forall p, q :: 0 <= p < q < |keys| ==> keys[p] != keys[q]
  }

  predicate OwnKeysDistinct(n: Node)
    requires Encodable(n)
  {
    if n.Mapping? then
      EncodableKeys(n);
      AllDistinct(Keys(n))
    else true
  }

  /** No map holds two keys with the same encoding. */
  predicate DistinctKeys(n: Node)
    requires Encodable(n)
    decreases n
  {
    n.Sequence? || n.Mapping? ==>
      OwnKeysDistinct(n) && forall k :: 0 <= k < Width(n) ==> Encodable(n.kids[k]) && DistinctKeys(n.kids[k])
  }

  lemma {:induction false} ReorderedKey(a: Node, b: Node)
    requires Reordered(a, b) && KeyOk(a)
    ensures KeyOk(b) ==> KeyBytes(b) == KeyBytes(a)
  {
    hide Chain, IntScan, TextBytes;
  }

  /** Sorting both maps meets the pairs in the same sequence. */
  lemma OrdersCorrespond(a: Node, b: Node, pi: seq<nat>)
    requires a.Mapping? && b.Mapping? && Encodable(a) && Encodable(b) && |a.kids| == |b.kids|
    requires Permutation(pi, Pairs(a)) && PairsMatch(a, b, pi) && OwnKeysDistinct(a)
    ensures KeysOk(a) && KeysOk(b)
    ensures var oa, ob := PairOrder(a, true), PairOrder(b, true);
      forall k :: 0 <= k < Pairs(a) ==> ob[k] == pi[oa[k]]
  {
    hide Encodable, KeysOk, KeyBytes, Less, OrderOf;
    EncodableKeys(a);
    EncodableKeys(b);
    var ka, kb, oa, ob := Keys(a), Keys(b), PairOrder(a, true), PairOrder(b, true);
    forall p | 0 <= p < Pairs(a) ensures ka[p] == kb[pi[p]] {
      EncodableKid(a, 2 * p);
      EncodableKid(b, 2 * pi[p]);
      EncodableKeyOk(a.kids[2 * p]);
      EncodableKeyOk(b.kids[2 * pi[p]]);
      ReorderedKey(a.kids[2 * p], b.kids[2 * pi[p]]);
    }
    OrderIsStable(ka, Pairs(a));
    OrderIsStable(kb, Pairs(b));
    var r := seq(Pairs(a), k requires 0 <= k < Pairs(a) => pi[oa[k]]);
    MappedAscends(ka, kb, oa, pi, r);
    MappedAll(oa, pi, r, Pairs(a));
    AscendingUnique(kb, ob, r);
  }

  lemma {:induction false} MappedAscends(ka: seq<seq<byte>>, kb: seq<seq<byte>>, oa: seq<nat>, pi: seq<nat>, r: seq<nat>)
    requires |ka| == |kb| && Permutation(pi, |ka|) && Indices(oa, |ka|) && Ascending(ka, oa) && AllDistinct(ka)
    requires |r| == |oa| && forall k :: 0 <= k < |r| ==> r[k] == pi[oa[k]]
    requires forall p :: 0 <= p < |ka| ==> ka[p] == kb[pi[p]]
    ensures Indices(r, |kb|) && Ascending(kb, r)
  {
    hide Less;
    forall i, j | 0 <= i < j < |r| ensures Before(kb, r[i], r[j]) {
      assert Before(ka, oa[i], oa[j]);
      assert oa[i] != oa[j] by { BeforeAsymmetric(ka, oa[i], oa[j]); }
    }
  }

  lemma {:induction false} MappedAll(oa: seq<nat>, pi: seq<nat>, r: seq<nat>, n: nat)
    requires Permutation(pi, n) && |oa| == n && Indices(oa, n) && |r| == n && forall k :: 0 <= k < n ==> r[k] == pi[oa[k]]
    requires forall x: nat :: x < n ==> x in oa
    ensures forall x: nat :: x in r <==> x < n
  {
    forall x: nat | x < n ensures x in r {
      assert x in pi;
      var p :| 0 <= p < n && pi[p] == x;
      assert p in oa;
      var k :| 0 <= k < n && oa[k] == p;
      assert r[k] == x;
    }
  }

  /** Visiting both trees the same way meets equal items. */
  lemma {:induction false} SameItems(a: Node, b: Node, canonical: bool, va: seq<nat>, vb: seq<nat>)
    requires VisitOk(a, va) && VisitOk(b, vb) && |va| == |vb|
    requires forall k :: 0 <= k < |va| ==> ItemBytes(a.kids[va[k]], canonical) == ItemBytes(b.kids[vb[k]], canonical)
    ensures ItemsBytes(a, canonical, va) == ItemsBytes(b, canonical, vb)
    decreases |va|
  {
    hide ItemBytes;
    if va != [] { SameItems(a, b, canonical, va[..|va| - 1], vb[..|vb| - 1]); }
  }

  /**
   * Canonical encoding does not depend on the order of pairs: documents that differ only there, in maps at any
   * depth, have identical bytes when no map holds two keys that encode alike.
   */
  lemma {:induction false} OrderIndependent(a: Node, b: Node)
    requires Encodable(a) && Encodable(b) && Reordered(a, b) && DistinctKeys(a)
    ensures ItemBytes(a, true) == ItemBytes(b, true)
    decreases a
  {
    hide Encodable, KeysOk, ItemsBytes, OwnKeysDistinct, PairOrder, ScalarBytes, ContainerHeadBytes;
    if a.Sequence? {
      EncodableVisit(a, true);
      EncodableVisit(b, true);
      var va, vb := Visit(a, true), Visit(b, true);
      forall k | 0 <= k < |va| ensures ItemBytes(a.kids[va[k]], true) == ItemBytes(b.kids[vb[k]], true) {
        OrderIndependent(a.kids[va[k]], b.kids[vb[k]]);
      }
      SameItems(a, b, true, va, vb);
      SameHead(a, b);
    } else if a.Mapping? {
      var pi :| Permutation(pi, |a.kids| / 2) && PairsMatch(a, b, pi);
      MapIndependent(a, b, pi);
      SameHead(a, b);
    }
  }

  lemma SameHead(a: Node, b: Node)
    requires (a.Sequence? && b.Sequence?) || (a.Mapping? && b.Mapping?)
    requires a.tag == b.tag && |a.kids| == |b.kids| && Encodable(a) && Encodable(b)
    ensures Tags(a) == Tags(b) && ContainerHeadBytes(a) == ContainerHeadBytes(b)
  {
    hide HeadBytes, Chain;
  }

  lemma {:induction false} MapIndependent(a: Node, b: Node, pi: seq<nat>)
    requires a.Mapping? && b.Mapping? && Encodable(a) && Encodable(b) && |a.kids| == |b.kids| && DistinctKeys(a)
    requires Permutation(pi, |a.kids| / 2) && PairsMatch(a, b, pi)
    ensures KeysOk(a) && KeysOk(b) && VisitOk(a, Visit(a, true)) && VisitOk(b, Visit(b, true))
    ensures ItemsBytes(a, true, Visit(a, true)) == ItemsBytes(b, true, Visit(b, true))
    decreases a, 0
  {
    hide Encodable, KeysOk, ItemsBytes, ItemBytes, OwnKeysDistinct, PairOrder, KeysAndValues;
    EncodableVisit(a, true);
    EncodableVisit(b, true);
    OrdersCorrespond(a, b, pi);
    var va, vb, oa, ob := Visit(a, true), Visit(b, true), PairOrder(a, true), PairOrder(b, true);
    forall k | 0 <= k < |va| ensures ItemBytes(a.kids[va[k]], true) == ItemBytes(b.kids[vb[k]], true) {
      var p := k / 2;
      PairVisited(oa, p);
      PairVisited(ob, p);
      assert ob[p] == pi[oa[p]];
      assert k == 2 * p || k == 2 * p + 1;
      assert Reordered(a.kids[va[k]], b.kids[vb[k]]);
      OrderIndependent(a.kids[va[k]], b.kids[vb[k]]);
    }
    SameItems(a, b, true, va, vb);
  }

  // ---- canonical keys ascend, but only by the text they sort by --------------------------------

  /** Keys that are written as they are sorted: not booleans, nulls or containers. */
  predicate SortsAsWritten(key: Node) {
    key.FloatNode? || (key.Scalar? && key.tagId != TAG_BOOL && key.tagId != TAG_NULL)
  }

  lemma KeyAsWritten(key: Node)
    requires Encodable(key) && SortsAsWritten(key)
    ensures KeyOk(key) && KeyBytes(key) == ItemBytes(key, true)
  {
    hide Chain, IntScan, TextBytes, FloatBytes, IntBytes;
  }

  /** The encoded keys of a canonical map, as they are written, ascend. */
  predicate WrittenAscend(n: Node)
    requires n.Mapping? && Encodable(n)
  {
    EncodableKeys(n);
    EncodableVisit(n, true);
    forall i, j :: 0 <= i < j < Pairs(n) ==> !WrittenBelow(n, Visit(n, true)[2 * j], Visit(n, true)[2 * i])
  }

  /** Child a is written below child b. */
  predicate WrittenBelow(n: Node, a: nat, b: nat)
    requires n.Mapping? && Encodable(n) && a < Width(n) && b < Width(n)
  {
    EncodableKid(n, a);
    EncodableKid(n, b);
    Less(ItemBytes(n.kids[a], true), ItemBytes(n.kids[b], true))
  }

  /** Key p sorts before key q, and one of them is not written as it is sorted. */
  predicate AtRisk(n: Node, p: nat, q: nat)
    requires n.Mapping? && KeysOk(n) && p < Pairs(n) && q < Pairs(n)
  {
    Before(Keys(n), p, q) && !(SortsAsWritten(n.kids[2 * p]) && SortsAsWritten(n.kids[2 * q]))
  }

  /** No pair of keys at risk is written the other way round. */
  predicate RisksHold(n: Node)
    requires n.Mapping? && Encodable(n)
  {
    EncodableKeys(n);
    forall p, q :: 0 <= p < Pairs(n) && 0 <= q < Pairs(n) && AtRisk(n, p, q) ==> !WrittenBelow(n, 2 * q, 2 * p)
  }

  /** The written keys of any canonical map ascend exactly when its keys at risk do. */
  lemma WrittenAscendExactly(n: Node)
    requires n.Mapping? && Encodable(n)
    ensures WrittenAscend(n) <==> RisksHold(n)
  {
    hide Encodable, KeysOk, Less, ItemBytes, OrderOf, KeysAndValues, SortsAsWritten, Before;
    EncodableKeys(n);
    EncodableVisit(n, true);
    var order, visit := PairOrder(n, true), Visit(n, true);
    OrderIsStable(Keys(n), Pairs(n));
    if RisksHold(n) {
      forall i, j | 0 <= i < j < Pairs(n) ensures !WrittenBelow(n, visit[2 * j], visit[2 * i]) {
        PairVisited(order, i);
        PairVisited(order, j);
        assert Before(Keys(n), order[i], order[j]);
        WrittenPair(n, order[i], order[j]);
      }
    }
    if WrittenAscend(n) {
      forall p, q | 0 <= p < Pairs(n) && 0 <= q < Pairs(n) && AtRisk(n, p, q) ensures !WrittenBelow(n, 2 * q, 2 * p) {
        var i := PlaceOf(order, p);
        var j := PlaceOf(order, q);
        PairVisited(order, i);
        PairVisited(order, j);
        NotBoth(Keys(n), order, i, j);
      }
    }
  }

  /** In a canonical map of such keys the written keys ascend bytewise, each no greater than the next. */
  lemma WrittenKeysAscend(n: Node)
    requires n.Mapping? && Encodable(n)
    requires forall p :: 0 <= p < Pairs(n) ==> SortsAsWritten(n.kids[2 * p])
    ensures WrittenAscend(n)
  {
    hide Encodable, KeysOk, Less, ItemBytes, OrderOf, KeysAndValues, SortsAsWritten, Before, Keys, PairOrder, WrittenBelow, WrittenAscend;
    EncodableKeys(n);
    WrittenAscendExactly(n);
  }

  lemma PlaceOf(order: seq<nat>, p: nat) returns (i: nat)
    requires p in order
    ensures i < |order| && order[i] == p
  {
    i :| 0 <= i < |order| && order[i] == p;
  }

  /** Sorted indices stand in their order. */
  lemma NotBoth(keys: seq<seq<byte>>, order: seq<nat>, i: nat, j: nat)
    requires Indices(order, |keys|) && Ascending(keys, order) && i < |order| && j < |order| && Before(keys, order[i], order[j])
    ensures i < j
  {
    hide Before;
    BeforeAsymmetric(keys, order[i], order[j]);
  }

  lemma WrittenPair(n: Node, p: nat, q: nat)
    requires n.Mapping? && Encodable(n) && KeysOk(n) && RisksHold(n) && p < Pairs(n) && q < Pairs(n) && Before(Keys(n), p, q)
    ensures !WrittenBelow(n, 2 * q, 2 * p)
  {
    hide Encodable, KeysOk, Less, ItemBytes, SortsAsWritten;
    if !AtRisk(n, p, q) {
      EncodableKid(n, 2 * p);
      EncodableKid(n, 2 * q);
      KeyAsWritten(n.kids[2 * p]);
      KeyAsWritten(n.kids[2 * q]);
      BeforeAsymmetric(Keys(n), p, q);
    }
  }

  /** An untagged boolean or null key: written as one byte. */
  predicate Literal(key: Node) { key.Scalar? && key.tag == [] && (key.tagId == TAG_BOOL || key.tagId == TAG_NULL) }

  function LiteralByte(key: Node): byte
    requires Literal(key)
  {
    if key.tagId == TAG_NULL then 0xF6 else if BoolValue(key.value) then 0xF5 else 0xF4
  }

  predicate Plain(key: Node) { key.tag == [] && (key.Scalar? || key.FloatNode?) }

  /** The first byte a plain key is written with. */
  function Lead(key: Node): byte
    requires KeyOk(key) && Plain(key)
  {
    if Literal(key) then LiteralByte(key) else KeyLead(key)
  }

  function KeyLead(key: Node): byte
    requires KeyOk(key) && Plain(key)
  {
    KeyNotEmpty(key);
    KeyBytes(key)[0]
  }

  lemma KeyNotEmpty(key: Node)
    requires KeyOk(key)
    ensures KeyBytes(key) != []
  {
    hide Chain, IntScan, SimpleOf;
  }

  /** Of two keys, p in front of q: behind a literal no smaller lead, in front of one a smaller lead or the same byte. */
  predicate LeadsHold(p: Node, q: Node)
    requires KeyOk(p) && Plain(p) && KeyOk(q) && Plain(q)
  {
    && (Literal(p) ==> Lead(q) >= LiteralByte(p))
    && (!Literal(p) && Literal(q) ==> Lead(p) < LiteralByte(q) || KeyBytes(p) == [LiteralByte(q)])
  }

  predicate LiteralsInPlace(n: Node)
    requires n.Mapping? && KeysOk(n) && forall p :: 0 <= p < Pairs(n) ==> Plain(n.kids[2 * p])
  {
    forall p, q :: 0 <= p < Pairs(n) && 0 <= q < Pairs(n) && Before(Keys(n), p, q) ==> LeadsHold(n.kids[2 * p], n.kids[2 * q])
  }

  lemma LiteralWritten(key: Node)
    requires Encodable(key) && Literal(key)
    ensures ItemBytes(key, true) == [LiteralByte(key)]
  {
    hide IntScan, TextBytes;
    assert Tags(key) == [];
  }

  lemma OneByteBelow(b: byte, w: seq<byte>)
    requires w != []
    ensures Less(w, [b]) <==> w[0] < b
    ensures Less([b], w) <==> w[0] > b || (w[0] == b && |w| > 1)
  {
  }

  /** What two plain keys are written as compares as their leads do, as soon as one is a literal. */
  lemma LeadsDecide(p: Node, q: Node)
    requires Encodable(p) && Encodable(q) && KeyOk(p) && KeyOk(q) && Plain(p) && Plain(q) && (Literal(p) || Literal(q))
    ensures !Less(ItemBytes(q, true), ItemBytes(p, true)) <==> LeadsHold(p, q)
  {
    hide Encodable, ItemBytes, KeyOk, KeyBytes, Less;
    PlainWritten(p);
    PlainWritten(q);
    if Literal(p) {
      OneByteBelow(LiteralByte(p), ItemBytes(q, true));
    } else {
      OneByteBelow(LiteralByte(q), ItemBytes(p, true));
      OneByte(KeyBytes(p), LiteralByte(q));
    }
  }

  lemma OneByte(w: seq<byte>, b: byte)
    requires w != []
    ensures w == [b] <==> |w| == 1 && w[0] == b
  {
  }

  lemma PlainWritten(key: Node)
    requires Encodable(key) && KeyOk(key) && Plain(key)
    ensures ItemBytes(key, true) != [] && ItemBytes(key, true)[0] == Lead(key)
    ensures Literal(key) ==> ItemBytes(key, true) == [LiteralByte(key)]
    ensures !Literal(key) ==> ItemBytes(key, true) == KeyBytes(key)
  {
    hide Encodable, ItemBytes, KeyOk, KeyBytes;
    if Literal(key) { LiteralWritten(key); } else { KeyAsWritten(key); KeyNotEmpty(key); }
  }

  /**
   * The written keys of a canonical map of untagged scalar keys ascend exactly when no key sorted behind a boolean or
   * null key has a smaller first byte, and none sorted in front of one a greater.
   */
  lemma LiteralsDecide(n: Node)
    requires n.Mapping? && Encodable(n) && forall p :: 0 <= p < Pairs(n) ==> Plain(n.kids[2 * p])
    ensures KeysOk(n) && (WrittenAscend(n) <==> LiteralsInPlace(n))
  {
    hide Encodable, KeysOk, ItemBytes, KeyOk, KeyBytes, Less, Before, LeadsHold, WrittenAscend;
    EncodableKeys(n);
    WrittenAscendExactly(n);
    forall p, q | 0 <= p < Pairs(n) && 0 <= q < Pairs(n) && Before(Keys(n), p, q)
      ensures KeyOk(n.kids[2 * p]) && KeyOk(n.kids[2 * q]) && Plain(n.kids[2 * p]) && Plain(n.kids[2 * q])
      ensures (AtRisk(n, p, q) ==> !WrittenBelow(n, 2 * q, 2 * p)) <==> LeadsHold(n.kids[2 * p], n.kids[2 * q])
    {
      KeyAt(n, p);
      KeyAt(n, q);
      EncodableKid(n, 2 * p);
      EncodableKid(n, 2 * q);
      if Literal(n.kids[2 * p]) || Literal(n.kids[2 * q]) { LeadsDecide(n.kids[2 * p], n.kids[2 * q]); } else { NoLiterals(n.kids[2 * p], n.kids[2 * q]); }
    }
  }

  lemma KeyAt(n: Node, p: nat)
    requires n.Mapping? && KeysOk(n) && p < Pairs(n)
    ensures KeyOk(n.kids[2 * p])
  {
  }

  lemma NoLiterals(p: Node, q: Node)
    requires KeyOk(p) && Plain(p) && KeyOk(q) && Plain(q) && !Literal(p) && !Literal(q)
    ensures LeadsHold(p, q) && SortsAsWritten(p) && SortsAsWritten(q)
  {
    hide KeyOk, KeyBytes;
  }

  const TRUE_KEY: Node := Scalar([], TAG_BOOL, Ascii("true"))
  const LONG_KEY: Node := Scalar([], TAG_STR, Ascii("zzzzz"))

  /** A boolean key breaks it: true sorts by its text, before "zzzzz", and is written f5, which is greater. */
  lemma BooleanKeysMisplaced()
    ensures Encodable(TRUE_KEY) && Encodable(LONG_KEY)
    ensures Less(KeyBytes(TRUE_KEY), KeyBytes(LONG_KEY))
    ensures Less(ItemBytes(LONG_KEY, true), ItemBytes(TRUE_KEY, true))
  {
    hide Utf8.Valid;
    Utf8.AsciiValid(Ascii("true"));
    Utf8.AsciiValid(Ascii("zzzzz"));
    assert SimpleOf(Ascii("true")) == None && SimpleOf(Ascii("zzzzz")) == None;
    assert KeyBytes(TRUE_KEY)[0] == 0x64;
    assert KeyBytes(LONG_KEY)[0] == 0x65;
    assert ItemBytes(TRUE_KEY, true) == [0xF5];
  }

  // ---- the tree that comes back ---------------------------------------------------------------

  /** The tree with its maps' pairs in the order they are written. */
  function Arranged(n: Node, canonical: bool): (r: Node)
    requires Encodable(n)
    ensures r.tag == n.tag && r.Scalar? == n.Scalar? && r.FloatNode? == n.FloatNode?
    ensures r.Sequence? == n.Sequence? && r.Mapping? == n.Mapping?
    decreases n
  {
    if n.Sequence? || n.Mapping? then
      EncodableVisit(n, canonical);
      var visit := Visit(n, canonical);
      var kids := seq(Width(n), k requires 0 <= k < Width(n) => Arranged(n.kids[visit[k]], canonical));
      if n.Sequence? then Sequence(n.tag, kids) else Mapping(n.tag, kids)
    else n
  }

  lemma {:induction false} ArrangedEncodable(n: Node, canonical: bool)
    requires Encodable(n)
    ensures Encodable(Arranged(n, canonical))
    decreases n
  {
    hide KeysOk, Visit;
    if n.Sequence? || n.Mapping? {
      EncodableVisit(n, canonical);
      var visit, r := Visit(n, canonical), Arranged(n, canonical);
      forall k | 0 <= k < Width(n) ensures Encodable(r.kids[k]) {
        ArrangedEncodable(n.kids[visit[k]], canonical);
      }
    }
  }

  lemma {:induction false} ArrangedKey(n: Node, canonical: bool)
    requires Encodable(n)
    ensures Encodable(Arranged(n, canonical)) && KeyOk(n) && KeyOk(Arranged(n, canonical))
    ensures KeyBytes(Arranged(n, canonical)) == KeyBytes(n)
  {
    hide Visit, Chain, IntScan;
    ArrangedEncodable(n, canonical);
    EncodableKeyOk(n);
    EncodableKeyOk(Arranged(n, canonical));
  }

  /** The keys of an arranged map are those of the map, in its order. */
  lemma ArrangedKeyAt(n: Node, p: nat)
    requires n.Mapping? && Encodable(n) && p < Pairs(n)
    ensures Encodable(Arranged(n, true)) && KeysOk(Arranged(n, true)) && KeysOk(n) && Pairs(Arranged(n, true)) == Pairs(n)
    ensures Keys(Arranged(n, true))[p] == Keys(n)[PairOrder(n, true)[p]]
  {
    hide Encodable, KeysOk, KeyBytes, KeysAndValues, KeyOk;
    ArrangedEncodable(n, true);
    EncodableKeys(Arranged(n, true));
    EncodableKeys(n);
    var order := PairOrder(n, true);
    PairVisited(order, p);
    EncodableKid(n, 2 * order[p]);
    ArrangedKey(n.kids[2 * order[p]], true);
  }

  /** Keys taken in their order are in order from left to right. */
  lemma InPlace(kn: seq<seq<byte>>, kr: seq<seq<byte>>)
    requires |kr| == |kn|
    requires forall p :: 0 <= p < |kr| ==> kr[p] == kn[OrderOf(kn, |kn|)[p]]
    ensures OrderOf(kr, |kr|) == Iota(|kr|)
  {
    hide Less, OrderOf;
    var order := OrderOf(kn, |kn|);
    OrderIsStable(kn, |kn|);
    OrderIsStable(kr, |kr|);
    forall i, j | 0 <= i < j < |kr| ensures Before(kr, i, j) {
      assert Before(kn, order[i], order[j]);
    }
    IotaHas(|kr|);
    AscendingUnique(kr, OrderOf(kr, |kr|), Iota(|kr|));
  }

  /** An arranged map is visited from left to right. */
  lemma ArrangedOrder(n: Node, canonical: bool)
    requires n.Mapping? && Encodable(n)
    ensures var r := Arranged(n, canonical);
      Encodable(r) && KeysOk(r) && PairOrder(r, canonical) == Iota(Pairs(r))
  {
    hide Encodable, KeysOk, KeyBytes, Less, OrderOf, KeysAndValues;
    var r := Arranged(n, canonical);
    ArrangedEncodable(n, canonical);
    EncodableKeys(r);
    if canonical {
      EncodableKeys(n);
      forall p | 0 <= p < Pairs(r) ensures Keys(r)[p] == Keys(n)[OrderOf(Keys(n), Pairs(n))[p]] { ArrangedKeyAt(n, p); }
      hide Arranged, Keys;
      InPlace(Keys(n), Keys(r));
    }
  }

  lemma IotaHas(n: nat)
    ensures forall x: nat :: x in Iota(n) <==> x < n
  {
    forall x: nat | x < n ensures x in Iota(n) { assert Iota(n)[x] == x; }
  }

  lemma {:induction false} PairsFromIota(n: nat, k: nat)
    requires k < 2 * n
    ensures KeysAndValues(Iota(n))[k] == k
  {
    PairVisited(Iota(n), k / 2);
  }

  predicate LeftToRight(r: Node, canonical: bool) {
    (r.Sequence? || (r.Mapping? && KeysOk(r))) && Visit(r, canonical) == Iota(Width(r))
  }

  lemma ArrangedVisit(n: Node, canonical: bool)
    requires (n.Sequence? || n.Mapping?) && Encodable(n)
    ensures LeftToRight(Arranged(n, canonical), canonical)
  {
    hide Encodable, KeysOk, KeysAndValues, Arranged;
    var r := Arranged(n, canonical);
    if n.Mapping? {
      ArrangedOrder(n, canonical);
      forall k | 0 <= k < 2 * Pairs(r) ensures Visit(r, canonical)[k] == k { PairsFromIota(Pairs(r), k); }
    }
  }

  /** Encoding the arranged tree again gives the same bytes: what canonical bytes decode to is a fixpoint. */
  lemma {:induction false} ArrangedFixpoint(n: Node, canonical: bool)
    requires Encodable(n)
    ensures Encodable(Arranged(n, canonical)) && ItemBytes(Arranged(n, canonical), canonical) == ItemBytes(n, canonical)
    decreases n
  {
    hide Encodable, KeysOk, Visit, ItemsBytes, ContainerHeadBytes, ScalarBytes;
    var r := Arranged(n, canonical);
    ArrangedEncodable(n, canonical);
    if n.Sequence? || n.Mapping? {
      EncodableVisit(n, canonical);
      EncodableVisit(r, canonical);
      ArrangedVisit(n, canonical);
      var vn, vr := Visit(n, canonical), Visit(r, canonical);
      forall k | 0 <= k < |vr| ensures ItemBytes(r.kids[vr[k]], canonical) == ItemBytes(n.kids[vn[k]], canonical) {
        ArrangedFixpoint(n.kids[vn[k]], canonical);
      }
      SameItems(r, n, canonical, vr, vn);
      ArrangedHead(n, canonical);
    }
  }

  lemma ArrangedHead(n: Node, canonical: bool)
    requires (n.Sequence? || n.Mapping?) && Encodable(n) && Encodable(Arranged(n, canonical))
    ensures ContainerHeadBytes(Arranged(n, canonical)) == ContainerHeadBytes(n)
  {
    hide HeadBytes, Visit;
  }
}
