/** Canonical maps of the transcoder: the pairs of every map ascend by the bytes of their keys, and no key comes twice. */
module MarshalMaps {
  import opened Wrappers
  import opened Bytes
  import opened MarshalNumber
  import opened MarshalRead
  import CborEncode
  import CborHeads
  import CborOrder

  /** Keys and values in turn. */
  function Zip(keys: seq<seq<byte>>, values: seq<seq<byte>>): seq<byte>
    requires |keys| == |values|
    decreases |keys|
  {
    if keys == [] then []
    else Zip(keys[..|keys| - 1], values[..|keys| - 1]) + (keys[|keys| - 1] + values[|keys| - 1])
  }

  /** A map of n pairs whose keys strictly ascend by position in their bytes. */
  ghost predicate SortedMap(bytes: seq<byte>, n: nat) {
    exists keys, values: seq<seq<byte>> ::
      && |keys| == |values| == n < TWO_64 && (forall i, j :: 0 <= i < j < n ==> CborEncode.Below(keys[i], keys[j]))
      && bytes == CborHeads.HeadBytes(5, n) + Zip(keys, values)
  }

  /** Each pair is its key and a value. */
  predicate Led(keys: seq<seq<byte>>, pairs: seq<seq<byte>>) {
    |keys| == |pairs| && forall k :: 0 <= k < |keys| ==> keys[k] <= pairs[k]
  }

  lemma {:induction false} RowsLed(c: Config, m: Memory, n: nat, inKey: bool, emit: bool, depth: nat)
    requires m.at <= |c.s| && TableOf(c, m, n, inKey, emit, depth).Rows?
    ensures Led(TableOf(c, m, n, inKey, emit, depth).keys, TableOf(c, m, n, inKey, emit, depth).pairs)
    decreases n
  {
    hide Value, Twice;
    if n > 0 {
      var k := Value(c, m, true, emit, depth, false);
      var v := Value(c, k.m, inKey, emit, depth, false);
      RowsLed(c, v.m, n - 1, inKey, emit, depth);
    }
  }

  function Picked(s: seq<seq<byte>>, order: seq<nat>): (r: seq<seq<byte>>)
    requires CborEncode.Indices(order, |s|)
    ensures |r| == |order|
  {
    seq(|order|, k requires 0 <= k < |order| => s[order[k]])
  }

  function Values(keys: seq<seq<byte>>, pairs: seq<seq<byte>>): (r: seq<seq<byte>>)
    requires Led(keys, pairs)
    ensures |r| == |keys|
  {
    seq(|keys|, k requires 0 <= k < |keys| => pairs[k][|keys[k]|..])
  }

  lemma {:induction false} OrderZips(keys: seq<seq<byte>>, pairs: seq<seq<byte>>, order: seq<nat>)
    requires Led(keys, pairs) && CborEncode.Indices(order, |keys|)
    ensures InOrder(pairs, order) == Zip(Picked(keys, order), Picked(Values(keys, pairs), order))
    decreases |order|
  {
    if order != [] {
      var front, last := order[..|order| - 1], order[|order| - 1];
      OrderZips(keys, pairs, front);
      var ks, vs := Picked(keys, order), Picked(Values(keys, pairs), order);
      assert ks[..|ks| - 1] == Picked(keys, front) && vs[..|ks| - 1] == Picked(Values(keys, pairs), front);
      assert pairs[last] == keys[last] + pairs[last][|keys[last]|..];
    }
  }

  lemma TableSorted(keys: seq<seq<byte>>, pairs: seq<seq<byte>>)
    requires Led(keys, pairs) && |pairs| < TWO_64 && !Twice(keys)
    ensures SortedMap(TableItem(keys, pairs, true), |keys|)
  {
    hide CborHeads.HeadBytes, CborEncode.OrderOf, CborEncode.Below, Led, Zip;
    var order := CborEncode.OrderOf(keys, |keys|);
    SameCount(keys, pairs);
    CborOrder.OrderByBytes(keys);
    OrderZips(keys, pairs, order);
    var ks, vs := Picked(keys, order), Picked(Values(keys, pairs), order);
    forall i, j | 0 <= i < j < |ks| ensures CborEncode.Below(ks[i], ks[j]) { NoTie(keys, order, i, j); }
    assert TableItem(keys, pairs, true) == CborHeads.HeadBytes(5, |keys|) + Zip(ks, vs);
  }

  lemma SameCount(keys: seq<seq<byte>>, pairs: seq<seq<byte>>)
    requires Led(keys, pairs)
    ensures |keys| == |pairs|
  {}

  lemma NoTie(keys: seq<seq<byte>>, order: seq<nat>, i: nat, j: nat)
    requires i < j < |order| && CborEncode.Indices(order, |keys|) && CborOrder.ByBytes(keys, order) && !Twice(keys)
    ensures CborEncode.Below(keys[order[i]], keys[order[j]])
  {
    hide CborEncode.Below;
    if order[i] < order[j] { assert keys[order[j]] != keys[order[i]]; }
  }

  /** Every map that is emitted in canonical mode, wherever it stands in the stream. */
  lemma MapIsSorted(c: Config, m: Memory, slot: Option<nat>, inKey: bool, depth: nat)
    requires m.at <= |c.s| && c.canonical && Construct(c, m, 0x7B, slot, inKey, true, depth).Item?
    ensures TakeLong(c.s, m.at).Taken? && TakeLong(c.s, m.at).x >= 0
    ensures SortedMap(Construct(c, m, 0x7B, slot, inKey, true, depth).bytes, TakeLong(c.s, m.at).x)
  {
    hide Value, TableOf, TableItem, Twice, SortedMap, ReadLong;
    var t := TakeLong(c.s, m.at);
    RowsLed(c, m.(at := t.next), t.x, inKey, true, depth + 1);
    var r := TableOf(c, m.(at := t.next), t.x, inKey, true, depth + 1);
    TableSorted(r.keys, r.pairs);
  }
}
