/**
 * When a link comes out as what it names. The writer gives a bignum no object number and the reader gives it a slot,
 * so behind a bignum a link's number picks an earlier slot. The item is right exactly when each slot so picked holds
 * an item written like the one meant.
 */
module MarshalLinks {
  import opened Wrappers
  import opened Bytes
  import opened MarshalNumber
  import opened MarshalWrite
  import opened MarshalTree
  import opened MarshalRead
  import opened MarshalTranscode
  import opened MarshalExpand
  import opened MarshalCbor
  import opened MarshalMeaning
  import CborHeads
  import CborEncode
  import CborRead
  import CborRoundTrip
  import Utf8

  // ---- the condition ----------------------------------------------------------------------

  /** The names behind a value, whatever its links bring. */
  function Passed(compat: bool, t: Tree, key: bool, s: Names): (r: Names)
    ensures Extends(s, r)
    decreases t, 1
  {
    var s1 := PassedCore(compat, t, key, Anchored(s, AnchorOf(t)));
    if AnchorOf(t) != [] && |s.env| < |s1.env|
    then s1.(env := s1.env[|s.env| := Meaning(AnchorOf(t), Bears(t, key, compat, s.nreg))]) else s1
  }

  function PassedCore(compat: bool, t: Tree, key: bool, s: Names): (r: Names)
    ensures Extends(s, r)
    decreases t, 0, 1
  {
    match t
    case Scalar(_, rec) => Took(s, SpellingOf(rec.(isKey := key), compat))
    case Link(name) =>
      var w := Lookup(s.env, name);
      if w.Copied? then Took(s, SpellingOf(w.rec, compat)) else s
    case _ => PassedKids(compat, t, 0, Entered(s))
  }

  function PassedKids(compat: bool, t: Tree, k: nat, s: Names): (r: Names)
    requires IsBranch(t) && k <= |t.kids|
    ensures Extends(s, r)
    decreases t, 0, 0, |t.kids| - k
  {
    if k == |t.kids| then s else PassedKids(compat, t, k + 1, Passed(compat, t.kids[k], KeySlot(t, k), s))
  }

  /** The item of what a number stands for, where it has one. */
  function HeldItem(host: Host, key: bool, h: Held): Option<seq<byte>> {
    match h
    case Opened => None
    case Spelt(sp) => if NodeOf(host, key, sp).None? then None else SpellingItem(host, key, sp)
  }

  /** The slot at the link's number holds an item written like the one meant. */
  predicate LinkAgrees(host: Host, name: seq<byte>, key: bool, s: Names) {
    match Lookup(s.env, name)
    case Numbered(id, held) => HeldItem(host, key, Brings(s, id, held, false)) == HeldItem(host, key, held)
    case _ => true
  }

  /** Every link agrees, or every link in a key place. */
  predicate LinksAgree(host: Host, compat: bool, t: Tree, key: bool, s: Names, keysOnly: bool)
    decreases t, 1, 0
  {
    match t
    case Scalar(_, _) => true
    case Link(name) => (keysOnly && !key) || LinkAgrees(host, name, key, s)
    case _ => KidsAgree(host, compat, t, 0, Entered(Anchored(s, t.anchor)), keysOnly)
  }

  predicate KidsAgree(host: Host, compat: bool, t: Tree, k: nat, s: Names, keysOnly: bool)
    requires IsBranch(t) && k <= |t.kids|
    decreases t, 0, |t.kids| - k
  {
    k == |t.kids| ||
    ( && LinksAgree(host, compat, t.kids[k], KeySlot(t, k), s, keysOnly)
      && KidsAgree(host, compat, t, k + 1, Passed(compat, t.kids[k], KeySlot(t, k), s), keysOnly))
  }

  lemma {:induction false} KeysAgreeToo(host: Host, compat: bool, t: Tree, key: bool, s: Names)
    requires LinksAgree(host, compat, t, key, s, false)
    ensures LinksAgree(host, compat, t, key, s, true)
    decreases t, 1, 0
  {
    hide LinkAgrees;
    if IsBranch(t) { KidKeysAgreeToo(host, compat, t, 0, Entered(Anchored(s, t.anchor))); }
  }

  lemma {:induction false} KidKeysAgreeToo(host: Host, compat: bool, t: Tree, k: nat, s: Names)
    requires IsBranch(t) && k <= |t.kids| && KidsAgree(host, compat, t, k, s, false)
    ensures KidsAgree(host, compat, t, k, s, true)
    decreases t, 0, |t.kids| - k
  {
    hide LinksAgree, Passed;
    if k < |t.kids| {
      KeysAgreeToo(host, compat, t.kids[k], KeySlot(t, k), s);
      KidKeysAgreeToo(host, compat, t, k + 1, Passed(compat, t.kids[k], KeySlot(t, k), s));
    }
  }

  // ---- bytes that part ---------------------------------------------------------------------

  /** Neither begins with the other: no continuation makes them equal. */
  predicate Apart(a: seq<byte>, b: seq<byte>) { !(a <= b) && !(b <= a) }

  lemma {:induction false} Parting(a: seq<byte>, b: seq<byte>) returns (i: nat)
    requires Apart(a, b)
    ensures i < |a| && i < |b| && a[i] != b[i]
    decreases |a|
  {
    if a[0] != b[0] { i := 0; }
    else {
      assert a == [a[0]] + a[1..] && b == [b[0]] + b[1..];
      i := Parting(a[1..], b[1..]);
      i := i + 1;
    }
  }

  lemma ApartGrows(p: seq<byte>, a: seq<byte>, b: seq<byte>, x: seq<byte>, y: seq<byte>)
    requires Apart(a, b)
    ensures Apart(p + a + x, p + b + y)
  {
    var i := Parting(a, b);
    assert (p + a + x)[|p| + i] == a[i] && (p + b + y)[|p| + i] == b[i];
  }

  /** What two stretches of bytes have to do with each other. */
  predicate Weighs(a: seq<byte>, b: seq<byte>, same: bool) { if same then a == b else Apart(a, b) }

  lemma WeighJoin(a: seq<byte>, b: seq<byte>, x: seq<byte>, y: seq<byte>, p: bool, q: bool)
    requires Weighs(a, b, p) && Weighs(x, y, q)
    ensures Weighs(a + x, b + y, p && q)
  {
    if !p {
      ApartGrows([], a, b, x, y);
      assert [] + a + x == a + x && [] + b + y == b + y;
    } else if !q {
      ApartGrows(a, x, y, [], []);
      assert a + x + [] == a + x && a + y + [] == a + y;
    }
  }

  predicate Leaf(n: Node) { (n.Scalar? || n.FloatNode?) && n.tag == [] }

  /** The items of two scalars are equal, or part before either ends. */
  lemma LeavesPart(m: Node, n: Node)
    requires Leaf(m) && Leaf(n) && CborEncode.Encodable(m) && CborEncode.Encodable(n)
    ensures var a, b := CborEncode.ItemBytes(m, false), CborEncode.ItemBytes(n, false); a == b || Apart(a, b)
  {
    hide CborEncode.ItemBytes, CborEncode.Encodable, CborEncode.ScalarBytes;
    LeafBytes(m);
    LeafBytes(n);
    var a, b := CborEncode.ScalarBytes(m), CborEncode.ScalarBytes(n);
    if a <= b { LeafInside(m, n); }
    if b <= a { LeafInside(n, m); }
  }

  lemma LeafBytes(n: Node)
    requires Leaf(n) && CborEncode.Encodable(n)
    ensures CborEncode.ItemBytes(n, false) == CborEncode.ScalarBytes(n)
  {
    hide CborEncode.ScalarBytes;
    assert CborEncode.Tags(n) == [];
  }

  lemma LeafInside(m: Node, n: Node)
    requires Leaf(m) && Leaf(n) && CborEncode.Encodable(m) && CborEncode.Encodable(n)
    requires CborEncode.ScalarBytes(m) <= CborEncode.ScalarBytes(n)
    ensures CborEncode.ScalarBytes(m) == CborEncode.ScalarBytes(n)
  {
    hide CborEncode.ScalarBytes, CborEncode.Encodable, CborRead.ReadHead, CborRoundTrip.ScalarEvent;
    var a, b := CborEncode.ScalarBytes(m), CborEncode.ScalarBytes(n);
    assert b[0..0 + |a|] == a && b[0..0 + |b|] == b;
    CborRoundTrip.ScalarReadsBack(b, 0, m, false, 0, false);
    CborRoundTrip.ScalarReadsBack(b, 0, n, false, 0, false);
    AlwaysHeard(m);
    AlwaysHeard(n);
  }

  /** Outside a key place no scalar is refused. */
  lemma AlwaysHeard(n: Node)
    requires Leaf(n) && CborEncode.Encodable(n)
    ensures CborRoundTrip.ScalarEvent(n, false, false).Some?
  {
    hide CborHeads.IntScan, CborHeads.SimpleOf, Utf8.Valid, CborRead.ChainText, CborRoundTrip.WireNumber;
  }

  // ---- two items of one tree -------------------------------------------------------------------

  predicate Written(n: Node, canonical: bool, key: bool) {
    && CborEncode.Encodable(n)
    && (key ==> CborEncode.KeyOk(n) && CborEncode.KeyBytes(n) == CborEncode.ItemBytes(n, canonical))
  }

  predicate Same(m: Node, n: Node, canonical: bool) {
    CborEncode.Encodable(m) && CborEncode.Encodable(n) && CborEncode.ItemBytes(m, canonical) == CborEncode.ItemBytes(n, canonical)
  }

  /** Both are written, alike or parting. */
  predicate Near(m: Node, n: Node, canonical: bool, key: bool) {
    && Written(m, canonical, key) && Written(n, canonical, key)
    && (Same(m, n, canonical) || Apart(CborEncode.ItemBytes(m, canonical), CborEncode.ItemBytes(n, canonical)))
  }

  predicate AllNear(ms: seq<Node>, ns: seq<Node>, canonical: bool, t: Tree, k: nat) {
    |ms| == |ns| && forall j :: 0 <= j < |ms| ==> Near(ms[j], ns[j], canonical, KeySlot(t, k + j))
  }

  predicate AllSame(ms: seq<Node>, ns: seq<Node>, canonical: bool) {
    |ms| == |ns| && forall j :: 0 <= j < |ms| ==> Same(ms[j], ns[j], canonical)
  }

  /** In canonical order the keys must be the same for the pairs to meet. */
  predicate KeysSame(ms: seq<Node>, ns: seq<Node>, canonical: bool, t: Tree, k: nat) {
    |ms| == |ns| && (canonical ==> forall j :: 0 <= j < |ms| && KeySlot(t, k + j) ==> Same(ms[j], ns[j], canonical))
  }

  lemma NearEncodable(ms: seq<Node>, ns: seq<Node>, canonical: bool, t: Tree, k: nat)
    requires AllNear(ms, ns, canonical, t, k)
    ensures AllEncodable(ms) && AllEncodable(ns)
  {
    hide CborEncode.Encodable, CborEncode.ItemBytes, CborEncode.KeyOk, CborEncode.KeyBytes, Apart;
    forall j | 0 <= j < |ms| ensures CborEncode.Encodable(ms[j]) && CborEncode.Encodable(ns[j]) {
      assert Near(ms[j], ns[j], canonical, KeySlot(t, k + j));
    }
  }

  lemma {:induction false} CatNear(ms: seq<Node>, ns: seq<Node>, canonical: bool, t: Tree, k: nat)
    requires AllNear(ms, ns, canonical, t, k) && AllEncodable(ms) && AllEncodable(ns)
    ensures Weighs(Cat(ms, canonical), Cat(ns, canonical), AllSame(ms, ns, canonical))
    decreases |ms|
  {
    hide CborEncode.Encodable, CborEncode.ItemBytes, CborEncode.KeyOk, CborEncode.KeyBytes, Apart, KeySlot;
    if ms != [] {
      assert Near(ms[0], ns[0], canonical, KeySlot(t, k + 0));
      forall j | 0 <= j < |ms[1..]| ensures Near(ms[1..][j], ns[1..][j], canonical, KeySlot(t, k + 1 + j)) {
        assert Near(ms[j + 1], ns[j + 1], canonical, KeySlot(t, k + (j + 1)));
      }
      CatNear(ms[1..], ns[1..], canonical, t, k + 1);
      SameFront(ms, ns, canonical);
      WeighJoin(CborEncode.ItemBytes(ms[0], canonical), CborEncode.ItemBytes(ns[0], canonical), Cat(ms[1..], canonical), Cat(ns[1..], canonical),
                Same(ms[0], ns[0], canonical), AllSame(ms[1..], ns[1..], canonical));
    }
  }

  lemma SameFront(ms: seq<Node>, ns: seq<Node>, canonical: bool)
    requires |ms| == |ns| && ms != []
    ensures AllSame(ms, ns, canonical) <==> Same(ms[0], ns[0], canonical) && AllSame(ms[1..], ns[1..], canonical)
  {
    hide Same;
    if Same(ms[0], ns[0], canonical) && AllSame(ms[1..], ns[1..], canonical) {
      forall j | 0 <= j < |ms| ensures Same(ms[j], ns[j], canonical) {
        if j > 0 { assert ms[j] == ms[1..][j - 1] && ns[j] == ns[1..][j - 1]; }
      }
    }
    if AllSame(ms, ns, canonical) {
      forall j | 0 <= j < |ms[1..]| ensures Same(ms[1..][j], ns[1..][j], canonical) { assert Same(ms[j + 1], ns[j + 1], canonical); }
    }
  }

  /** The rows a mapping's kids make. */
  function RowKeys(kids: seq<Node>, canonical: bool): seq<seq<byte>>
    requires AllEncodable(kids)
  {
    seq(|kids| / 2, p requires 0 <= p < |kids| / 2 => CborEncode.ItemBytes(kids[2 * p], canonical))
  }

  function RowPairs(kids: seq<Node>, canonical: bool): seq<seq<byte>>
    requires AllEncodable(kids)
  {
    seq(|kids| / 2, p requires 0 <= p < |kids| / 2 =>
      CborEncode.ItemBytes(kids[2 * p], canonical) + CborEncode.ItemBytes(kids[2 * p + 1], canonical))
  }

  lemma RowsStand(ms: seq<Node>, ns: seq<Node>, canonical: bool, t: Tree)
    requires AllNear(ms, ns, canonical, t, 0) && t.Table? && |ms| % 2 == 0 && AllEncodable(ms) && AllEncodable(ns)
    ensures RowsOf(ms, canonical, RowKeys(ms, canonical), RowPairs(ms, canonical))
    ensures RowsOf(ns, canonical, RowKeys(ns, canonical), RowPairs(ns, canonical))
  {
    hide CborEncode.Encodable, CborEncode.ItemBytes, CborEncode.KeyOk, CborEncode.KeyBytes, Apart, RowOf;
    forall p | 0 <= p < |ms| / 2
      ensures RowOf(ms[2 * p], ms[2 * p + 1], canonical, RowKeys(ms, canonical)[p], RowPairs(ms, canonical)[p])
      ensures RowOf(ns[2 * p], ns[2 * p + 1], canonical, RowKeys(ns, canonical)[p], RowPairs(ns, canonical)[p])
    {
      assert Near(ms[2 * p], ns[2 * p], canonical, KeySlot(t, 0 + 2 * p));
      OneRow(ms[2 * p], ms[2 * p + 1], canonical);
      OneRow(ns[2 * p], ns[2 * p + 1], canonical);
    }
  }

  lemma OneRow(k: Node, v: Node, canonical: bool)
    requires Written(k, canonical, true) && CborEncode.Encodable(v)
    ensures RowOf(k, v, canonical, CborEncode.ItemBytes(k, canonical),
                  CborEncode.ItemBytes(k, canonical) + CborEncode.ItemBytes(v, canonical))
  {
  }

  predicate MeetAll(ps: seq<seq<byte>>, qs: seq<seq<byte>>, order: seq<nat>)
    requires |ps| == |qs| && CborEncode.Indices(order, |ps|)
  {
    forall k :: 0 <= k < |order| ==> ps[order[k]] == qs[order[k]]
  }

  /** Pairs in one order: alike throughout, or parting. */
  lemma {:induction false} InOrderNear(ps: seq<seq<byte>>, qs: seq<seq<byte>>, order: seq<nat>)
    requires |ps| == |qs| && CborEncode.Indices(order, |ps|)
    requires forall p :: 0 <= p < |ps| ==> ps[p] == qs[p] || Apart(ps[p], qs[p])
    ensures Weighs(InOrder(ps, order), InOrder(qs, order), MeetAll(ps, qs, order))
    decreases |order|
  {
    hide Apart;
    if order != [] {
      var front, last := order[..|order| - 1], order[|order| - 1];
      InOrderNear(ps, qs, front);
      WeighJoin(InOrder(ps, front), InOrder(qs, front), ps[last], qs[last], MeetAll(ps, qs, front), ps[last] == qs[last]);
      assert forall k :: 0 <= k < |front| ==> front[k] == order[k];
    }
  }

  lemma ListNear(t: Tree, ms: seq<Node>, ns: seq<Node>, canonical: bool)
    requires t.List? && |ms| < TWO_64 && AllNear(ms, ns, canonical, t, 0)
    ensures Near(BranchNode(t, ms), BranchNode(t, ns), canonical, false)
    ensures Same(BranchNode(t, ms), BranchNode(t, ns), canonical) <==> AllSame(ms, ns, canonical)
    ensures !Clash(BranchNode(t, ms)) && !Clash(BranchNode(t, ns))
  {
    hide CborEncode.Encodable, CborEncode.ItemBytes, CborHeads.HeadBytes, Cat, Near, Same, AllNear, AllSame;
    NearEncodable(ms, ns, canonical, t, 0);
    AllNearSizes(ms, ns, canonical, t, 0);
    BranchEncodable(t, ms);
    BranchEncodable(t, ns);
    ListItem(BranchNode(t, ms), canonical);
    ListItem(BranchNode(t, ns), canonical);
    CatNear(ms, ns, canonical, t, 0);
    var h := CborHeads.HeadBytes(4, |ms|);
    WeighJoin(h, h, Cat(ms, canonical), Cat(ns, canonical), true, AllSame(ms, ns, canonical));
    NearWeighed(BranchNode(t, ms), BranchNode(t, ns), canonical, AllSame(ms, ns, canonical));
  }

  lemma AllNearSizes(ms: seq<Node>, ns: seq<Node>, canonical: bool, t: Tree, k: nat)
    requires AllNear(ms, ns, canonical, t, k)
    ensures |ms| == |ns|
  {
  }

  lemma NearWeighed(m: Node, n: Node, canonical: bool, same: bool)
    requires CborEncode.Encodable(m) && CborEncode.Encodable(n)
    requires Weighs(CborEncode.ItemBytes(m, canonical), CborEncode.ItemBytes(n, canonical), same)
    ensures Near(m, n, canonical, false) && (Same(m, n, canonical) <==> same)
  {
    hide CborEncode.Encodable, CborEncode.ItemBytes;
  }

  /** The pairs of two mappings are alike where key and value are. */
  lemma PairNear(ms: seq<Node>, ns: seq<Node>, canonical: bool, t: Tree, p: nat)
    requires AllNear(ms, ns, canonical, t, 0) && t.Table? && 2 * p + 1 < |ms| && AllEncodable(ms) && AllEncodable(ns)
    ensures |ms| == |ns|
    ensures Weighs(RowPairs(ms, canonical)[p], RowPairs(ns, canonical)[p],
                   Same(ms[2 * p], ns[2 * p], canonical) && Same(ms[2 * p + 1], ns[2 * p + 1], canonical))
  {
    hide CborEncode.Encodable, CborEncode.ItemBytes, CborEncode.KeyOk, CborEncode.KeyBytes, Apart;
    assert Near(ms[2 * p], ns[2 * p], canonical, KeySlot(t, 0 + 2 * p));
    assert Near(ms[2 * p + 1], ns[2 * p + 1], canonical, KeySlot(t, 0 + (2 * p + 1)));
    WeighJoin(CborEncode.ItemBytes(ms[2 * p], canonical), CborEncode.ItemBytes(ns[2 * p], canonical),
              CborEncode.ItemBytes(ms[2 * p + 1], canonical), CborEncode.ItemBytes(ns[2 * p + 1], canonical),
              Same(ms[2 * p], ns[2 * p], canonical), Same(ms[2 * p + 1], ns[2 * p + 1], canonical));
  }

  /** An order that visits every pair meets throughout exactly when all kids are the same. */
  lemma PairsMeet(ms: seq<Node>, ns: seq<Node>, canonical: bool, t: Tree, order: seq<nat>)
    requires AllNear(ms, ns, canonical, t, 0) && t.Table? && |ms| % 2 == 0 && AllEncodable(ms) && AllEncodable(ns) && |ms| == |ns|
    requires CborEncode.Indices(order, |ms| / 2) && forall x: nat :: x < |ms| / 2 ==> x in order
    ensures Weighs(InOrder(RowPairs(ms, canonical), order), InOrder(RowPairs(ns, canonical), order), AllSame(ms, ns, canonical))
  {
    hide CborEncode.Encodable, CborEncode.ItemBytes, Apart, AllNear, InOrder, Same, RowPairs;
    var ps, qs := RowPairs(ms, canonical), RowPairs(ns, canonical);
    RowPairsSize(ms, canonical);
    RowPairsSize(ns, canonical);
    forall p | 0 <= p < |ps|
      ensures Weighs(ps[p], qs[p], Same(ms[2 * p], ns[2 * p], canonical) && Same(ms[2 * p + 1], ns[2 * p + 1], canonical))
      ensures ps[p] == qs[p] <==> Same(ms[2 * p], ns[2 * p], canonical) && Same(ms[2 * p + 1], ns[2 * p + 1], canonical)
      ensures ps[p] == qs[p] || Apart(ps[p], qs[p])
    {
      PairNear(ms, ns, canonical, t, p);
      ApartDiffers(ps[p], qs[p]);
    }
    InOrderNear(ps, qs, order);
    if MeetAll(ps, qs, order) {
      forall j | 0 <= j < |ms| ensures Same(ms[j], ns[j], canonical) {
        var p := j / 2;
        assert p in order;
        var k :| 0 <= k < |order| && order[k] == p;
        assert ps[p] == qs[p];
        assert j == 2 * p || j == 2 * p + 1;
      }
    }
  }

  lemma ApartDiffers(a: seq<byte>, b: seq<byte>)
    ensures Apart(a, b) ==> a != b
  {
  }

  lemma RowPairsSize(kids: seq<Node>, canonical: bool)
    requires AllEncodable(kids)
    ensures |RowPairs(kids, canonical)| == |kids| / 2 == |RowKeys(kids, canonical)|
  {
  }

  lemma KeysMeet(ms: seq<Node>, ns: seq<Node>, canonical: bool, t: Tree)
    requires t.Table? && |ms| == |ns| && |ms| % 2 == 0 && AllEncodable(ms) && AllEncodable(ns)
    requires forall j :: 0 <= j < |ms| && KeySlot(t, j) ==> Same(ms[j], ns[j], canonical)
    ensures RowKeys(ms, canonical) == RowKeys(ns, canonical)
  {
    hide CborEncode.Encodable, CborEncode.ItemBytes;
    var a, b := RowKeys(ms, canonical), RowKeys(ns, canonical);
    forall p | 0 <= p < |a| ensures a[p] == b[p] {
      assert KeySlot(t, 2 * p);
      assert Same(ms[2 * p], ns[2 * p], canonical);
    }
  }

  lemma VisitsAll(keys: seq<seq<byte>>, canonical: bool)
    ensures var order := if canonical then CborEncode.OrderOf(keys, |keys|) else CborEncode.Iota(|keys|);
      CborEncode.Indices(order, |keys|) && forall x: nat :: x < |keys| ==> x in order
  {
    var order := if canonical then CborEncode.OrderOf(keys, |keys|) else CborEncode.Iota(|keys|);
    forall x: nat | x < |keys| ensures x in order {
      if canonical { CborEncode.OrderHasAll(keys, |keys|, x); } else { assert order[x] == x; }
    }
  }

  lemma TableNear(t: Tree, ms: seq<Node>, ns: seq<Node>, canonical: bool)
    requires t.Table? && |ms| < TWO_64 && |ms| % 2 == 0 && AllNear(ms, ns, canonical, t, 0) && KeysSame(ms, ns, canonical, t, 0)
    ensures Near(BranchNode(t, ms), BranchNode(t, ns), canonical, false)
    ensures Same(BranchNode(t, ms), BranchNode(t, ns), canonical) <==> AllSame(ms, ns, canonical)
    ensures AllSame(ms, ns, canonical) ==> (Clash(BranchNode(t, ms)) <==> Clash(BranchNode(t, ns)))
  {
    hide CborEncode.Encodable, CborEncode.ItemBytes, CborHeads.HeadBytes, InOrder, Near, Same, AllNear, Clash, RowPairs, RowKeys, RowsOf, Twice,
      CborEncode.OrderOf, CborEncode.Iota;
    NearEncodable(ms, ns, canonical, t, 0);
    AllNearSizes(ms, ns, canonical, t, 0);
    BranchEncodable(t, ms);
    BranchEncodable(t, ns);
    RowsStand(ms, ns, canonical, t);
    RowPairsSize(ms, canonical);
    RowPairsSize(ns, canonical);
    var ks, ls, ps, qs := RowKeys(ms, canonical), RowKeys(ns, canonical), RowPairs(ms, canonical), RowPairs(ns, canonical);
    TableItems(BranchNode(t, ms), canonical, ks, ps);
    TableItems(BranchNode(t, ns), canonical, ls, qs);
    if canonical || AllSame(ms, ns, canonical) { KeysMeet(ms, ns, canonical, t); }
    VisitsAll(ks, canonical);
    var order := if canonical then CborEncode.OrderOf(ks, |ks|) else CborEncode.Iota(|ks|);
    PairsMeet(ms, ns, canonical, t, order);
    var h := CborHeads.HeadBytes(5, |ps|);
    WeighJoin(h, h, InOrder(ps, order), InOrder(qs, order), true, AllSame(ms, ns, canonical));
    NearWeighed(BranchNode(t, ms), BranchNode(t, ns), canonical, AllSame(ms, ns, canonical));
  }

  // ---- the tree with its links meant, and with its links read -----------------------------------

  /** No branch holds more than a count can say. */
  ghost predicate Fits(counts: seq<nat>) { forall k :: 0 <= k < |counts| ==> counts[k] < 0x1_0000_0000 }

  lemma FitsApart(a: seq<nat>, b: seq<nat>)
    requires Fits(a + b)
    ensures Fits(a) && Fits(b)
  {
    forall k | 0 <= k < |a| ensures a[k] < 0x1_0000_0000 { assert (a + b)[k] == a[k]; }
    forall k | 0 <= k < |b| ensures b[k] < 0x1_0000_0000 { assert (a + b)[|a| + k] == b[k]; }
  }

  /** y is read, z is meant. */
  predicate Compared(y: Expansion, z: Expansion, agree: bool, canonical: bool, key: bool, after: Names) {
    && (agree ==> (y.Made? <==> z.Made?))
    && (y.Made? ==> y.names == after) && (z.Made? ==> z.names == after)
    && (y.Made? && z.Made? ==> Near(y.node, z.node, canonical, key) && (agree <==> Same(y.node, z.node, canonical)))
  }

  predicate KidsCompared(y: Expansions, z: Expansions, agree: bool, canonical: bool, t: Tree, k: nat, after: Names) {
    && (agree ==> (y.AllMade? <==> z.AllMade?))
    && (y.AllMade? ==> y.names == after) && (z.AllMade? ==> z.names == after)
    && (y.AllMade? && z.AllMade? ==>
          && AllNear(y.nodes, z.nodes, canonical, t, k) && KeysSame(y.nodes, z.nodes, canonical, t, k)
          && (agree <==> AllSame(y.nodes, z.nodes, canonical)))
  }

  /** A node of a scalar is a leaf and encodes. */
  lemma SpellingNode(host: Host, key: bool, sp: Spelled, canonical: bool)
    requires NodeOf(host, key, sp).Some?
    ensures SpellingItem(host, key, sp).Some?
    ensures var n := NodeOf(host, key, sp).value;
      Leaf(n) && Written(n, canonical, key) && CborEncode.ItemBytes(n, canonical) == SpellingItem(host, key, sp).value
      && CborEncode.ItemBytes(n, false) == CborEncode.ItemBytes(n, canonical)
  {
    hide SpellingItem, CborEncode.Encodable, CborEncode.ItemBytes, CborEncode.KeyOk, CborEncode.KeyBytes;
    ScalarEncodes(host, key, sp);
  }

  lemma ScalarNear(host: Host, compat: bool, canonical: bool, rec: ScalarRecord, key: bool, s: Names)
    ensures var y := ExpandScalar(host, compat, rec, key, s);
      Compared(y, y, true, canonical, key, Took(s, SpellingOf(rec, compat)))
  {
    hide SpellingOf, NodeOf, SpellingItem, CborEncode.Encodable, CborEncode.ItemBytes, CborEncode.KeyOk, CborEncode.KeyBytes;
    var sp := SpellingOf(rec, compat);
    if NodeOf(host, key, sp).Some? { SpellingNode(host, key, sp, canonical); }
  }

  lemma NumberNear(host: Host, canonical: bool, id: nat, held: Held, key: bool, s: Names)
    ensures var h := Brings(s, id, held, false);
      Compared(Brought(host, key, h, s), Brought(host, key, held, s), HeldItem(host, key, h) == HeldItem(host, key, held), canonical, key, s)
  {
    hide NodeOf, SpellingItem, CborEncode.Encodable, CborEncode.ItemBytes, CborEncode.KeyOk, CborEncode.KeyBytes, Brings, Apart;
    var h := Brings(s, id, held, false);
    var y, z := Brought(host, key, h, s), Brought(host, key, held, s);
    if y.Made? { SpellingNode(host, key, h.sp, canonical); }
    if z.Made? { SpellingNode(host, key, held.sp, canonical); }
    if y.Made? && z.Made? { LeavesPart(y.node, z.node); }
  }

  function Brought(host: Host, key: bool, h: Held, s: Names): Expansion {
    match h
    case Opened => Unmade
    case Spelt(sp) => if NodeOf(host, key, sp).None? then Unmade else Made(NodeOf(host, key, sp).value, s)
  }

  lemma LinkNear(host: Host, compat: bool, canonical: bool, name: seq<byte>, key: bool, s: Names)
    ensures var w := Lookup(s.env, name);
      Compared(ExpandLink(host, compat, name, key, s, false), ExpandLink(host, compat, name, key, s, true),
               LinkAgrees(host, name, key, s), canonical, key, if w.Copied? then Took(s, SpellingOf(w.rec, compat)) else s)
  {
    hide NodeOf, SpellingOf, HeldItem, Compared, Lookup, ExpandScalar, Took;
    match Lookup(s.env, name)
    case Unset => NothingCompared(LinkAgrees(host, name, key, s), canonical, key, s);
    case Copied(rec) => ScalarNear(host, compat, canonical, rec, key, s);
    case Numbered(id, held) =>
      NumberNear(host, canonical, id, held, key, s);
      assert Brings(s, id, held, true) == held;
  }

  lemma NothingCompared(agree: bool, canonical: bool, key: bool, s: Names)
    ensures Compared(Unmade, Unmade, agree, canonical, key, s)
  {
  }

  lemma {:induction false} TreeNear(host: Host, compat: bool, canonical: bool, t: Tree, key: bool, s: Names, depth: nat)
    requires Shaped(t) && Fits(TreeCounts(t)) && (canonical ==> LinksAgree(host, compat, t, key, s, true))
    ensures Compared(Expand(host, compat, t, key, s, depth, false), Expand(host, compat, t, key, s, depth, true),
                     LinksAgree(host, compat, t, key, s, false), canonical, key, Passed(compat, t, key, s))
    decreases t, 1
  {
    hide Near, Same, ExpandCore, PassedCore, LinksAgree, TreeCounts, Shaped, Bears, Fits;
    CoreNear(host, compat, canonical, t, key, s, depth);
  }

  lemma {:induction false} CoreNear(host: Host, compat: bool, canonical: bool, t: Tree, key: bool, s: Names, depth: nat)
    requires Shaped(t) && Fits(TreeCounts(t)) && (canonical ==> LinksAgree(host, compat, t, key, s, true))
    ensures var s1 := Anchored(s, AnchorOf(t));
      Compared(ExpandCore(host, compat, t, key, s1, depth, false), ExpandCore(host, compat, t, key, s1, depth, true),
               LinksAgree(host, compat, t, key, s, false), canonical, key, PassedCore(compat, t, key, s1))
    decreases t, 0
  {
    hide Compared, LinkAgrees, ExpandScalar, ExpandLink, ExpandKids, Clash, SpellingOf, Took, Lookup, KidsAgree, PassedKids, Fits, TreeCounts, Shaped;
    var s1 := Anchored(s, AnchorOf(t));
    var agree := LinksAgree(host, compat, t, key, s, false);
    NothingCompared(agree, canonical, key, PassedCore(compat, t, key, s1));
    if depth < MAX_DEPTH {
      match t
      case Scalar(_, rec) => ScalarNear(host, compat, canonical, rec.(isKey := key), key, s1);
      case Link(name) =>
        assert s1 == s;
        LinkNear(host, compat, canonical, name, key, s);
      case _ => if !key { BranchNear(host, compat, canonical, t, s1, depth); }
    }
  }

  lemma {:induction false} BranchNear(host: Host, compat: bool, canonical: bool, t: Tree, s: Names, depth: nat)
    requires IsBranch(t) && Shaped(t) && Fits(TreeCounts(t)) && (canonical ==> KidsAgree(host, compat, t, 0, Entered(s), true))
    requires depth < MAX_DEPTH
    ensures Compared(ExpandCore(host, compat, t, false, s, depth, false), ExpandCore(host, compat, t, false, s, depth, true),
                     KidsAgree(host, compat, t, 0, Entered(s), false), canonical, false, PassedKids(compat, t, 0, Entered(s)))
    decreases t, 0, |t.kids| + 1
  {
    hide ExpandKids, KidsAgree, PassedKids, Fits, TreeCounts, KidCounts, Clash, Near, Same, AllNear, AllSame, KeysSame, Entered;
    BranchFits(t);
    KidsNear(host, compat, canonical, t, 0, Entered(s), depth + 1);
    var y, z := ExpandKids(host, compat, t, 0, Entered(s), depth + 1, false), ExpandKids(host, compat, t, 0, Entered(s), depth + 1, true);
    if y.AllMade? && z.AllMade? {
      if t.List? { ListNear(t, y.nodes, z.nodes, canonical); } else { TableNear(t, y.nodes, z.nodes, canonical); }
    }
  }

  lemma BranchFits(t: Tree)
    requires IsBranch(t) && Fits(TreeCounts(t))
    ensures |t.kids| < TWO_64 && Fits(KidCounts(t, 0))
  {
    hide KidCounts, Fits;
    FitsApart([Announced(t)], KidCounts(t, 0));
    OneFits(Announced(t));
  }

  lemma OneFits(n: nat)
    requires Fits([n])
    ensures n < 0x1_0000_0000
  {
    assert [n][0] == n;
  }

  /** A link in a key place that agrees as a key agrees. */
  lemma KeyKid(host: Host, compat: bool, t: Tree, s: Names, depth: nat)
    requires LinksAgree(host, compat, t, true, s, true) && Expand(host, compat, t, true, s, depth, true).Made?
    ensures LinksAgree(host, compat, t, true, s, false)
  {
    hide LinkAgrees, ExpandScalar, ExpandLink;
  }

  lemma NoKids(canonical: bool, t: Tree, k: nat, s: Names)
    ensures KidsCompared(AllMade([], s), AllMade([], s), true, canonical, t, k, s)
  {
  }

  function Followed(y: Expansion, rest: Expansions): Expansions {
    if y.Made? then Beside(y.node, rest) else NotMade
  }

  lemma BesideNear(y: Expansion, z: Expansion, ys: Expansions, zs: Expansions, agree: bool, rest: bool, canonical: bool, t: Tree, k: nat,
                   s: Names, after: Names)
    requires IsBranch(t) && k < |t.kids| && Compared(y, z, agree, canonical, KeySlot(t, k), s)
    requires KidsCompared(ys, zs, rest, canonical, t, k + 1, after)
    requires canonical && KeySlot(t, k) && z.Made? ==> agree
    ensures KidsCompared(Followed(y, ys), Followed(z, zs), agree && rest, canonical, t, k, after)
  {
    hide Near, Same, KeySlot, AllNear, AllSame, KeysSame;
    if y.Made? && z.Made? && ys.AllMade? && zs.AllMade? {
      FrontNear(y.node, z.node, ys.nodes, zs.nodes, canonical, t, k);
    }
  }

  lemma FrontNear(m: Node, n: Node, ms: seq<Node>, ns: seq<Node>, canonical: bool, t: Tree, k: nat)
    requires Near(m, n, canonical, KeySlot(t, k)) && (canonical && KeySlot(t, k) ==> Same(m, n, canonical))
    requires AllNear(ms, ns, canonical, t, k + 1) && KeysSame(ms, ns, canonical, t, k + 1)
    ensures AllNear([m] + ms, [n] + ns, canonical, t, k) && KeysSame([m] + ms, [n] + ns, canonical, t, k)
    ensures AllSame([m] + ms, [n] + ns, canonical) <==> Same(m, n, canonical) && AllSame(ms, ns, canonical)
  {
    hide Near, Same, KeySlot;
    var a, b := [m] + ms, [n] + ns;
    forall j | 0 <= j < |a|
      ensures Near(a[j], b[j], canonical, KeySlot(t, k + j)) && (canonical && KeySlot(t, k + j) ==> Same(a[j], b[j], canonical))
    {
      if j > 0 { assert Near(ms[j - 1], ns[j - 1], canonical, KeySlot(t, k + 1 + (j - 1))); }
    }
    assert a[1..] == ms && b[1..] == ns;
    SameFront(a, b, canonical);
  }

  lemma {:induction false} KidsNear(host: Host, compat: bool, canonical: bool, t: Tree, k: nat, s: Names, depth: nat)
    requires IsBranch(t) && k <= |t.kids| && Shaped(t) && Fits(KidCounts(t, k)) && (canonical ==> KidsAgree(host, compat, t, k, s, true))
    ensures KidsCompared(ExpandKids(host, compat, t, k, s, depth, false), ExpandKids(host, compat, t, k, s, depth, true),
                         KidsAgree(host, compat, t, k, s, false), canonical, t, k, PassedKids(compat, t, k, s))
    decreases t, 0, |t.kids| - k
  {
    hide Expand, LinksAgree, Passed, Fits, TreeCounts, Near, Same, Shaped;
    if k < |t.kids| {
      var kid, key := t.kids[k], KeySlot(t, k);
      var s1 := Passed(compat, kid, key, s);
      FitsApart(TreeCounts(kid), KidCounts(t, k + 1));
      KidsShape(t, k);
      TreeNear(host, compat, canonical, kid, key, s, depth);
      KidsNear(host, compat, canonical, t, k + 1, s1, depth);
      var y, z := Expand(host, compat, kid, key, s, depth, false), Expand(host, compat, kid, key, s, depth, true);
      if canonical && key && z.Made? { KeyKid(host, compat, kid, s, depth); }
      BesideNear(y, z, ExpandKids(host, compat, t, k + 1, s1, depth, false), ExpandKids(host, compat, t, k + 1, s1, depth, true),
                 LinksAgree(host, compat, kid, key, s, false), KidsAgree(host, compat, t, k + 1, s1, false), canonical, t, k,
                 s1, PassedKids(compat, t, k + 1, s1));
    } else {
      NoKids(canonical, t, k, s);
    }
  }

  // ---- the exact condition ------------------------------------------------------------------------

  /** The tree with every link replaced by what it names. */
  function Meant(host: Host, compat: bool, t: Tree): Expansion { Expand(host, compat, t, false, NAMELESS, 0, true) }

  /** Every link of the tree picks a slot whose item is written like the one meant; or every link in a key place. */
  predicate AllAgree(host: Host, compat: bool, t: Tree, keysOnly: bool) {
    LinksAgree(host, compat, t, false, NAMELESS, keysOnly)
  }

  lemma WritableFits(t: Tree)
    requires Writable(t)
    ensures Shaped(t) && Fits(TreeCounts(t))
  {
    hide Counts, TreeCounts, Records, AnyRejected;
    CountsFit(Records(t, false));
    CountsOfTree(t);
  }

  /**
   * Where the links agree, transcoding the stream of a tree gives the item of the tree meant, or nothing when it has
   * none. Where a tree with a meaning comes out right, its links agree: in stream order always, in canonical order
   * when those in key places do, since two wrong keys can change places there.
   */
  lemma MeansExactly(t: Tree, compat: bool, canonical: bool, host: Host)
    requires Writable(t)
    ensures AllAgree(host, compat, t, false) ==>
      Gives(Transcode(Records(t, false), compat, canonical, host), Meant(host, compat, t), canonical)
    ensures Meant(host, compat, t).Made? && (canonical ==> AllAgree(host, compat, t, true)) ==>
      (Gives(Transcode(Records(t, false), compat, canonical, host), Meant(host, compat, t), canonical) <==> AllAgree(host, compat, t, false))
  {
    hide Writable, Transcode, Expand, LinksAgree, TreeCounts, Records, CborEncode.ItemBytes, CborEncode.Encodable, Shaped, Fits, CborEncode.KeyOk,
      CborEncode.KeyBytes, Apart;
    WritableFits(t);
    Transcodes(t, compat, canonical, host);
    if AllAgree(host, compat, t, false) { KeysAgreeToo(host, compat, t, false, NAMELESS); }
    if canonical ==> AllAgree(host, compat, t, true) {
      TreeNear(host, compat, canonical, t, false, NAMELESS, 0);
    }
  }

  // ---- where bignums are absent ---------------------------------------------------------------------

  /** No scalar takes the 'l' form. */
  predicate Small(t: Tree, compat: bool)
    decreases t
  {
    match t
    case Scalar(_, rec) => !Bulky(SpellingOf(rec, compat))
    case Link(_) => true
    case List(_, kids) => forall k :: 0 <= k < |kids| ==> Small(kids[k], compat)
    case Table(_, kids) => forall k :: 0 <= k < |kids| ==> Small(kids[k], compat)
  }

  /** Every number stands for what its slot holds, and no bignum waits to be written again. */
  predicate StraightAt(s: Names, w: What, compat: bool) {
    match w
    case Numbered(id, held) => id < |s.memo| && s.memo[id] == held
    case Copied(rec) => !Bulky(SpellingOf(rec, compat))
    case Unset => true
  }

  predicate Straight(s: Names, compat: bool) {
    |s.memo| == s.nreg && forall k :: 0 <= k < |s.env| ==> StraightAt(s, s.env[k].what, compat)
  }

  lemma {:induction false} LookupStraight(s: Names, env: seq<Meaning>, name: seq<byte>, compat: bool)
    requires forall k :: 0 <= k < |env| ==> StraightAt(s, env[k].what, compat)
    ensures StraightAt(s, Lookup(env, name), compat)
    decreases |env|
  {
    hide StraightAt;
    if env != [] { LookupStraight(s, env[..|env| - 1], name, compat); }
    UnsetStraight(s, compat);
  }

  lemma UnsetStraight(s: Names, compat: bool)
    ensures StraightAt(s, Unset, compat)
  {
  }

  lemma StaysStraight(s: Names, t: Names, compat: bool)
    requires Straight(s, compat) && s.memo <= t.memo && t.env == s.env && |t.memo| == t.nreg
    ensures Straight(t, compat)
  {
    forall k | 0 <= k < |t.env| ensures StraightAt(t, t.env[k].what, compat) {
      assert StraightAt(s, s.env[k].what, compat);
    }
  }

  lemma SpellingIgnoresKey(rec: ScalarRecord, key: bool, compat: bool)
    ensures SpellingOf(rec.(isKey := key), compat) == SpellingOf(rec, compat)
  {
    hide BignumValue, LimbCount, PsychInt, SymbolText, FloatText;
  }

  /** Without bignums the numbers and the slots agree throughout. */
  lemma {:induction false} SmallAgrees(host: Host, compat: bool, t: Tree, key: bool, s: Names)
    requires Small(t, compat) && Straight(s, compat)
    ensures LinksAgree(host, compat, t, key, s, false) && Straight(Passed(compat, t, key, s), compat)
    decreases t, 1
  {
    hide SpellingOf, PassedCore, Straight, LinksAgree, StraightAt, Bears;
    var anchor, s1 := AnchorOf(t), Anchored(s, AnchorOf(t));
    AnchoredStraight(s, anchor, compat);
    CoreAgrees(host, compat, t, key, s, s1);
    if anchor != [] { BearsStraight(t, key, compat, s, s1, PassedCore(compat, t, key, s1)); }
  }

  lemma AnchoredStraight(s: Names, anchor: seq<byte>, compat: bool)
    requires Straight(s, compat)
    ensures Straight(Anchored(s, anchor), compat)
  {
    var t := Anchored(s, anchor);
    forall k | 0 <= k < |t.env| ensures StraightAt(t, t.env[k].what, compat) {
      if k < |s.env| { assert StraightAt(s, s.env[k].what, compat); }
    }
  }

  lemma BearsStraight(t: Tree, key: bool, compat: bool, s: Names, s1: Names, after: Names)
    requires !t.Link? && Small(t, compat) && Straight(s, compat) && s1 == Anchored(s, t.anchor) && t.anchor != []
    requires after == PassedCore(compat, t, key, s1) && Straight(after, compat)
    ensures |s.env| < |after.env|
    ensures Straight(after.(env := after.env[|s.env| := Meaning(t.anchor, Bears(t, key, compat, s.nreg))]), compat)
  {
    hide SpellingOf, PassedKids;
    assert s1.nreg == s.nreg == |s1.memo|;
    if t.Scalar? { SpellingIgnoresKey(t.rec, key, compat); }
    var w, env := Bears(t, key, compat, s.nreg), after.env[|s.env| := Meaning(t.anchor, Bears(t, key, compat, s.nreg))];
    assert IsBranch(t) ==> after.memo[s.nreg] == Entered(s1).memo[s.nreg];
    assert StraightAt(after, w, compat);
    forall k | 0 <= k < |env| ensures StraightAt(after.(env := env), env[k].what, compat) {
      if k != |s.env| { assert StraightAt(after, after.env[k].what, compat); }
    }
  }

  lemma {:induction false} CoreAgrees(host: Host, compat: bool, t: Tree, key: bool, s: Names, s1: Names)
    requires Small(t, compat) && Straight(s1, compat) && s1 == Anchored(s, AnchorOf(t))
    ensures LinksAgree(host, compat, t, key, s, false) && Straight(PassedCore(compat, t, key, s1), compat)
    decreases t, 0
  {
    hide SpellingOf, HeldItem, Lookup, PassedKids, KidsAgree;
    match t
    case Scalar(_, rec) =>
      SpellingIgnoresKey(rec, key, compat);
      StaysStraight(s1, PassedCore(compat, t, key, s1), compat);
    case Link(name) =>
      LookupStraight(s1, s1.env, name, compat);
      StaysStraight(s1, PassedCore(compat, t, key, s1), compat);
    case _ =>
      StaysStraight(s1, Entered(s1), compat);
      KidsSmall(host, compat, t, 0, Entered(s1));
  }

  lemma {:induction false} KidsSmall(host: Host, compat: bool, t: Tree, k: nat, s: Names)
    requires IsBranch(t) && k <= |t.kids| && Small(t, compat) && Straight(s, compat)
    ensures KidsAgree(host, compat, t, k, s, false) && Straight(PassedKids(compat, t, k, s), compat)
    decreases t, 0, |t.kids| - k
  {
    hide SpellingOf, LinksAgree, Passed, Straight;
    if k < |t.kids| {
      SmallAgrees(host, compat, t.kids[k], KeySlot(t, k), s);
      KidsSmall(host, compat, t, k + 1, Passed(compat, t.kids[k], KeySlot(t, k), s));
    }
  }

  /** Without bignums every tree comes out as it is meant. */
  lemma SmallIsRight(t: Tree, compat: bool, canonical: bool, host: Host)
    requires Writable(t) && Small(t, compat)
    ensures Gives(Transcode(Records(t, false), compat, canonical, host), Meant(host, compat, t), canonical)
  {
    hide Writable, Transcode, Expand, LinksAgree, Small, Gives;
    SmallAgrees(host, compat, t, false, NAMELESS);
    MeansExactly(t, compat, canonical, host);
  }
}
