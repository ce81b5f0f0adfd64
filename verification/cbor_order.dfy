/** Canonical order by position in the bytes: what every map of an encoding is written in. */
module CborOrder {
  import opened Bytes
  import opened CborHeads
  import opened CborEncode
  import opened CborCanonical

  /** Every index below n, once. */
  predicate Permutes(order: seq<nat>, n: nat) { |order| == n && Indices(order, n) && forall x: nat :: x < n ==> x in order }

  /** Ascending by position in the bytes, equal keys in place order. */
  predicate ByBytes(keys: seq<seq<byte>>, order: seq<nat>)
    requires Indices(order, |keys|)
  {
    forall i, j :: 0 <= i < j < |order| ==>
      Below(keys[order[i]], keys[order[j]]) || (keys[order[i]] == keys[order[j]] && order[i] < order[j])
  }

  lemma OrderByBytes(keys: seq<seq<byte>>)
    ensures Permutes(OrderOf(keys, |keys|), |keys|) && ByBytes(keys, OrderOf(keys, |keys|))
  {
    hide Less, Below;
    OrderIsStable(keys, |keys|);
    var order := OrderOf(keys, |keys|);
    forall i, j | 0 <= i < j < |order|
      ensures Below(keys[order[i]], keys[order[j]]) || (keys[order[i]] == keys[order[j]] && order[i] < order[j])
    {
      assert Before(keys, order[i], order[j]);
      LessExactly(keys[order[i]], keys[order[j]]);
    }
  }

  /** The pairs of a mapping, each key's item and its value's, in that order. */
  function PairsText(n: Node, order: seq<nat>): seq<byte>
    requires n.Mapping? && Encodable(n) && Indices(order, Pairs(n))
    decreases |order|
  {
    if order == [] then []
    else
      var last := order[|order| - 1];
      EncodableKid(n, 2 * last);
      EncodableKid(n, 2 * last + 1);
      PairsText(n, order[..|order| - 1]) + (ItemBytes(n.kids[2 * last], true) + ItemBytes(n.kids[2 * last + 1], true))
  }

  /** The mapping's item is its pairs in some order that ascends by the keys' bytes. */
  ghost predicate PairsInOrder(n: Node)
    requires n.Mapping? && Encodable(n)
  {
    EncodableKeys(n);
    exists order :: Permutes(order, Pairs(n)) && ByBytes(Keys(n), order)
                 && ItemBytes(n, true) == Tags(n) + HeadBytes(5, Pairs(n)) + PairsText(n, order)
  }

  /** And so for every mapping of the tree. */
  ghost predicate MapsInOrder(n: Node)
    decreases n
  {
    && Encodable(n) && (n.Mapping? ==> PairsInOrder(n))
    && (n.Sequence? || n.Mapping? ==> forall k :: 0 <= k < Width(n) ==> MapsInOrder(n.kids[k]))
  }

  lemma {:induction false} PairsAreItems(n: Node, order: seq<nat>)
    requires n.Mapping? && Encodable(n) && Indices(order, Pairs(n))
    ensures VisitOk(n, KeysAndValues(order)) && ItemsBytes(n, true, KeysAndValues(order)) == PairsText(n, order)
    decreases |order|
  {
    hide Encodable, ItemBytes, ItemsBytes, KeysAndValues, Pairs;
    VisitEncodable(n, order);
    if order == [] {
      NoPairs(n);
    } else {
      var front, last := order[..|order| - 1], order[|order| - 1];
      PairsAreItems(n, front);
      TwoMore(n, order);
    }
  }

  lemma NoPairs(n: Node)
    ensures KeysAndValues([]) == [] && VisitOk(n, []) ==> ItemsBytes(n, true, []) == []
    ensures KeysAndValues([]) == []
  {}

  lemma VisitEncodable(n: Node, order: seq<nat>)
    requires n.Mapping? && Encodable(n) && Indices(order, Pairs(n))
    ensures VisitOk(n, KeysAndValues(order))
  {
    hide Encodable, KeysAndValues;
    VisitInside(order, Pairs(n));
    var visit := KeysAndValues(order);
    forall k | 0 <= k < |visit| ensures visit[k] < |n.kids| && Encodable(n.kids[visit[k]]) { EncodableKid(n, visit[k]); }
  }

  lemma TwoMore(n: Node, order: seq<nat>)
    requires n.Mapping? && Encodable(n) && Indices(order, Pairs(n)) && order != []
    requires var front := order[..|order| - 1];
      VisitOk(n, KeysAndValues(front)) && ItemsBytes(n, true, KeysAndValues(front)) == PairsText(n, front)
    requires VisitOk(n, KeysAndValues(order))
    ensures ItemsBytes(n, true, KeysAndValues(order)) == PairsText(n, order)
  {
    hide Encodable, ItemBytes, ItemsBytes, PairsText, KeysAndValues, VisitOk, Pairs;
    var front, last := order[..|order| - 1], order[|order| - 1];
    PairsText1(n, order);
    VisitLast(order);
    StepTwice(n, KeysAndValues(order), KeysAndValues(front), 2 * last, 2 * last + 1);
    Regroup(ItemsBytes(n, true, KeysAndValues(front)), ItemBytes(n.kids[2 * last], true), ItemBytes(n.kids[2 * last + 1], true));
  }

  lemma Regroup(a: seq<byte>, b: seq<byte>, c: seq<byte>)
    ensures a + b + c == a + (b + c)
  {}

  lemma VisitLast(order: seq<nat>)
    requires order != []
    ensures var last := order[|order| - 1]; KeysAndValues(order) == KeysAndValues(order[..|order| - 1]) + [2 * last, 2 * last + 1]
  {}

  lemma PairsText1(n: Node, order: seq<nat>)
    requires n.Mapping? && Encodable(n) && Indices(order, Pairs(n)) && order != []
    ensures var last := order[|order| - 1];
      && 2 * last + 1 < |n.kids| && Encodable(n.kids[2 * last]) && Encodable(n.kids[2 * last + 1])
      && PairsText(n, order) == PairsText(n, order[..|order| - 1]) + (ItemBytes(n.kids[2 * last], true) + ItemBytes(n.kids[2 * last + 1], true))
  {
    hide Encodable, ItemBytes;
    var last := order[|order| - 1];
    EncodableKid(n, 2 * last);
    EncodableKid(n, 2 * last + 1);
  }

  lemma StepTwice(n: Node, v: seq<nat>, f: seq<nat>, x: nat, y: nat)
    requires VisitOk(n, v) && VisitOk(n, f) && v == f + [x, y] && x < |n.kids| && y < |n.kids| && Encodable(n.kids[x]) && Encodable(n.kids[y])
    ensures ItemsBytes(n, true, v) == ItemsBytes(n, true, f) + ItemBytes(n.kids[x], true) + ItemBytes(n.kids[y], true)
  {
    hide Encodable, ItemBytes, ItemsBytes;
    assert v == (f + [x]) + [y];
    StepOne(n, f, x);
    StepOne(n, f + [x], y);
  }

  lemma StepOne(n: Node, f: seq<nat>, x: nat)
    requires VisitOk(n, f) && x < |n.kids| && Encodable(n.kids[x])
    ensures VisitOk(n, f + [x]) && ItemsBytes(n, true, f + [x]) == ItemsBytes(n, true, f) + ItemBytes(n.kids[x], true)
  {
    hide Encodable, ItemBytes;
    assert (f + [x])[..|f|] == f;
  }

  /** The canonical encoding: in every mapping, at any depth, the encoded keys ascend by their bytes. */
  lemma {:induction false} CanonicalByBytes(n: Node)
    requires Encodable(n)
    ensures MapsInOrder(n)
    decreases n
  {
    hide Encodable, ItemBytes, PairsInOrder;
    if n.Mapping? { MappingByBytes(n); }
    if n.Sequence? || n.Mapping? {
      forall k | 0 <= k < Width(n) ensures MapsInOrder(n.kids[k]) {
        EncodableKid(n, k);
        CanonicalByBytes(n.kids[k]);
      }
    }
  }

  lemma MappingByBytes(n: Node)
    requires n.Mapping? && Encodable(n)
    ensures PairsInOrder(n)
  {
    hide Encodable, KeysOk, ItemsBytes, Keys, OrderOf, KeysAndValues, PairsText, ByBytes, Permutes;
    EncodableKeys(n);
    EncodableVisit(n, true);
    var order := PairOrder(n, true);
    OrderByBytes(Keys(n));
    PairsAreItems(n, order);
    ItemIs(n);
  }

  lemma ItemIs(n: Node)
    requires n.Mapping? && Encodable(n) && KeysOk(n) && VisitOk(n, Visit(n, true))
    ensures Visit(n, true) == KeysAndValues(PairOrder(n, true))
    ensures ItemBytes(n, true) == Tags(n) + HeadBytes(5, Pairs(n)) + ItemsBytes(n, true, Visit(n, true))
  {
    hide KeysOk, ItemsBytes, PairOrder, KeysAndValues, HeadBytes;
  }
}
