/** cenc: the two passes over a document, and the run that holds them together. */
module CborPasses {
  import opened Wrappers
  import opened Bytes
  import opened CborRead
  import opened CborHeads
  import opened CborEncode
  import CborOrder
  import opened CborWriter
  import Utf8

  lemma {:induction false} ChainSize(c: seq<nat>)
    requires forall k :: 0 <= k < |c| ==> c[k] < TWO_64
    ensures |TagHeads(c)| <= 9 * |c|
  {
    if c != [] { ChainSize(c[..|c| - 1]); }
  }

  /** The scratch cbor_encode_key allocates: tags, a head, the text. */
  lemma {:induction false} KeyFits(n: Node)
    requires KeyOk(n)
    ensures |KeyBytes(n)| <= TAG_MAX_LINKS * 9 + 9 + |if n.Scalar? then n.value else []|
  {
    hide Chain, IntScan, SimpleOf, Utf8.Valid, FloatWidth, TagHeads;
    ChainSize(Chain(n.tag).value);
  }

  /** After k of the children to visit: some was refused, or size and preparations so far are theirs. */
  ghost predicate Sized(n: Node, canonical: bool, visit: seq<nat>, k: nat, failed: bool, sz: int, maps: seq<Prep>, from: seq<Prep>) {
    && (n.Sequence? || n.Mapping?) && k <= |visit| && Indices(visit, |n.kids|)
    && if failed then exists j :: 0 <= j < k && !Supported(n.kids[visit[j]])
       else
         && VisitOk(n, visit[..k])
         && sz == |ItemsBytes(n, canonical, visit[..k])|
         && maps == from + KidPreps(n, canonical, visit[..k])
  }

  lemma SizedStart(n: Node, canonical: bool, visit: seq<nat>, maps: seq<Prep>)
    requires (n.Sequence? || n.Mapping?) && Indices(visit, |n.kids|)
    ensures Sized(n, canonical, visit, 0, false, 0, maps, maps)
  {}

  lemma SizedRange(n: Node, canonical: bool, visit: seq<nat>, k: nat, sz: int, maps: seq<Prep>, from: seq<Prep>)
    requires Sized(n, canonical, visit, k, false, sz, maps, from)
    ensures sz >= 0 && from <= maps
  {
    hide ItemsBytes, KidPreps;
  }

  lemma SizedStep(n: Node, canonical: bool, visit: seq<nat>, k: nat, failed: bool, sz: int, one: nat,
                  before: seq<Prep>, maps: seq<Prep>, from: seq<Prep>)
    requires Sized(n, canonical, visit, k, false, sz, before, from) && k < |visit| && Storable(n.kids[visit[k]])
    requires failed <==> !Supported(n.kids[visit[k]])
    requires !failed ==> one == |ItemBytes(n.kids[visit[k]], canonical)| && maps == before + Preps(n.kids[visit[k]], canonical)
    ensures Sized(n, canonical, visit, k + 1, failed, sz + one, maps, from)
  {
    hide ItemsBytes, KidPreps, Supported, Storable, ItemBytes, Preps;
    if !failed {
      var v := visit[..k + 1];
      assert v[..k] == visit[..k] && v[..k + 1] == v;
      ItemsStep(n, canonical, v, k);
    }
  }

  /** All children visited: the item's size and preparations, or a refusal. */
  lemma SizedEnd(n: Node, canonical: bool, visit: seq<nat>, k: nat, failed: bool, sz: int, maps: seq<Prep>, from: seq<Prep>, before: seq<Prep>)
    requires (n.Sequence? || (n.Mapping? && (canonical ==> KeysOk(n)))) && Storable(n) && Chain(n.tag).Some?
    requires Sized(n, canonical, visit, k, failed, sz, maps, from)
    requires visit == Visit(n, canonical) && (failed || k == |visit|) && from == before + OwnPrep(n, canonical)
    ensures failed <==> !Supported(n)
    ensures !failed ==>
      && |ItemBytes(n, canonical)| == |Tags(n)| + ArgBytes(if n.Sequence? then |n.kids| else Pairs(n)) + sz
      && maps == before + Preps(n, canonical)
  {
    hide ItemsBytes, KidPreps, Storable, Supported, TagHeads, Chain, KeysOk, HeadBytes, Preps, OwnPrep, Visit;
    CountFits(n);
    if failed {
      var j :| 0 <= j < k && !Supported(n.kids[visit[j]]);
      if Supported(n) { EncodableKid(n, visit[j]); }
    } else {
      assert visit[..k] == visit;
      AllSupported(n, canonical);
      PrepsSplit(n, canonical);
    }
  }

  lemma AllSupported(n: Node, canonical: bool)
    requires (n.Sequence? || (n.Mapping? && (canonical ==> KeysOk(n)))) && Storable(n) && Chain(n.tag).Some?
    requires VisitOk(n, Visit(n, canonical))
    ensures Supported(n)
  {
    hide KeysOk, Visit, Storable;
    forall i | 0 <= i < Width(n) ensures Supported(n.kids[i]) {
      var k := VisitHits(n, canonical, i);
    }
  }

  lemma SizedFailed(n: Node, canonical: bool, visit: seq<nat>, k: nat, sz: int, maps: seq<Prep>, from: seq<Prep>)
    requires Sized(n, canonical, visit, k, true, sz, maps, from) && k < |visit|
    ensures Sized(n, canonical, visit, k + 1, true, sz, maps, from)
  {
    hide Supported;
  }

  lemma CountFits(n: Node)
    requires (n.Sequence? || n.Mapping?) && Storable(n)
    ensures |n.kids| < TWO_64
  {}

  lemma BadKeys(n: Node)
    requires n.Mapping? && Storable(n) && !KeysOk(n)
    ensures !Supported(n)
  {
    hide Storable, Supported, KeysOk;
    if Supported(n) { EncodableKeys(n); }
  }

  lemma VisitPair(n: Node, canonical: bool, p: nat)
    requires n.Mapping? && (canonical ==> KeysOk(n)) && p < Pairs(n)
    ensures var visit, i := Visit(n, canonical), if canonical then PrepOf(n).order[p] else p;
      && i < Pairs(n) && |visit| == 2 * Pairs(n) && Indices(visit, |n.kids|)
      && visit[2 * p] == 2 * i && visit[2 * p + 1] == 2 * i + 1
    ensures canonical ==>
      && |PrepOf(n).child| == 2 * Pairs(n) && |PrepOf(n).order| == Pairs(n)
      && PrepOf(n).child[2 * PrepOf(n).order[p]] == n.kids[2 * PrepOf(n).order[p]]
      && PrepOf(n).child[2 * PrepOf(n).order[p] + 1] == n.kids[2 * PrepOf(n).order[p] + 1]
  {
    hide KeysOk, OrderOf;
  }

  /** cbor_encode_key: NULL is None. */
  method EncodeKey(n: Node) returns (r: Option<seq<byte>>)
    requires Storable(n)
    ensures r == if KeyOk(n) then Some(KeyBytes(n)) else None
  {
    hide Chain, IntScan, TagHeads, IntBytes, FloatBytes, TextBytes, FloatWidth;
    var v := if n.Scalar? then n.value else [];
    var tags := SizeTags(n.tag);
    if tags == None || (n.Scalar? && NumberTag(n.tagId) && IntScan(n.value).None?) {
      return None;
    }
    KeyFits(n);
    var scratch := new byte[TAG_MAX_LINKS * 9 + 9 + |v|];
    var b := new Buffer(scratch);
    assert b.Written() == [];
    PutTags(n.tag, b);
    assert b.Written() == Tags(n);
    if n.FloatNode? {
      b.PutFloat(n.bits);
    } else if n.Scalar? && NumberTag(n.tagId) {
      PutInt(IntScan(n.value).value, b);
    } else {
      PutText(n.tag != [], v, b);
    }
    return Some(b.out[..b.pos]);
  }

  // ---- the write pass ----------------------------------------------------------------

  /** The preparations from position from on begin with ps. */
  ghost predicate Holds(maps: seq<Prep>, from: nat, ps: seq<Prep>) {
    from + |ps| <= |maps| && maps[from..from + |ps|] == ps
  }

  lemma HeldPart(maps: seq<Prep>, from: nat, all: seq<Prep>, front: seq<Prep>, part: seq<Prep>)
    requires Holds(maps, from, all) && front + part <= all
    ensures Holds(maps, from + |front|, part)
  {
    var m := maps[from..from + |all|];
    forall k | 0 <= k < |part| ensures maps[from + |front| + k] == part[k] {
      assert m[|front| + k] == (front + part)[|front| + k];
    }
  }

  lemma HeldHead(maps: seq<Prep>, from: nat, own: seq<Prep>, kids: seq<Prep>)
    requires Holds(maps, from, own + kids)
    ensures Holds(maps, from + |own|, kids)
    ensures own != [] ==> from < |maps| && maps[from] == own[0]
  {
    HeldPart(maps, from, own + kids, own, kids);
    if own != [] { assert maps[from..from + |own + kids|][0] == own[0]; }
  }

  /** After k children: their bytes written, their preparations taken. */
  ghost predicate Tracked(n: Node, canonical: bool, visit: seq<nat>, k: nat, written: seq<byte>, base: seq<byte>, next: nat, from: nat) {
    && VisitOk(n, visit) && k <= |visit|
    && written == base + ItemsBytes(n, canonical, visit[..k])
    && next == from + |KidPreps(n, canonical, visit[..k])|
  }

  lemma TrackStart(n: Node, canonical: bool, visit: seq<nat>, base: seq<byte>, from: nat)
    requires VisitOk(n, visit)
    ensures Tracked(n, canonical, visit, 0, base, base, from, from)
  {}

  lemma TrackEnd(n: Node, canonical: bool, visit: seq<nat>, written: seq<byte>, base: seq<byte>, next: nat, from: nat)
    requires Tracked(n, canonical, visit, |visit|, written, base, next, from)
    ensures VisitOk(n, visit)
    ensures written == base + ItemsBytes(n, canonical, visit) && next == from + |KidPreps(n, canonical, visit)|
  {
    assert visit[..|visit|] == visit;
  }

  lemma VisitWidth(n: Node, canonical: bool)
    requires n.Mapping? && (canonical ==> KeysOk(n))
    ensures |Visit(n, canonical)| == 2 * Pairs(n)
  {}

  lemma NoContainer(n: Node, canonical: bool)
    requires Encodable(n) && (n.Scalar? || n.FloatNode?)
    ensures Preps(n, canonical) == []
  {}

  lemma EncodableParts(n: Node)
    requires Encodable(n)
    ensures Chain(n.tag).Some? && Storable(n) && !n.Alias?
    ensures (n.Sequence? || n.Mapping?) ==> |n.kids| < TWO_64
  {}

  lemma FloatSize(bits: nat)
    requires bits < TWO_64
    ensures |FloatBytes(bits)| == 1 + FloatWidth(bits)
  {}

  class Encoder {
    const canonical: bool
    var failed: bool
    var maps: seq<Prep>
    var nextMap: nat

    constructor (canonical: bool)
      ensures this.canonical == canonical && !failed && maps == [] && nextMap == 0
    {
      this.canonical := canonical;
      failed := false;
      maps := [];
      nextMap := 0;
    }

    /** cbor_canon_prepare: the map's children and the stable order of its encoded keys. */
    method CanonPrepare(n: Node)
      requires n.Mapping? && Storable(n) && !failed
      modifies `maps, `failed
      ensures failed <==> !KeysOk(n)
      ensures !failed ==> maps == old(maps) + [PrepOf(n)]
    {
      hide KeyOk, KeyBytes, OrderOf, Storable;
      maps := maps + [Prep([], [])];
      var pairs := Pairs(n);
      var keys: seq<seq<byte>>, p := [], 0;
      while p < pairs
        invariant p <= pairs && |keys| == p && !failed && maps == old(maps) + [Prep([], [])]
        invariant forall q :: 0 <= q < p ==> KeyOk(n.kids[2 * q]) && keys[q] == KeyBytes(n.kids[2 * q])
      {
        StorableKid(n, 2 * p);
        var key := EncodeKey(n.kids[2 * p]);
        if key == None {
          failed := true;
          return;
        }
        keys := keys + [key.value];
        p := p + 1;
      }
      assert keys == Keys(n);
      var order := new nat[pairs];
      SortOrder(keys, order);
      maps := maps[|maps| - 1 := Prep(n.kids[..2 * pairs], order[..])];
    }

    /** cbor_size_scalar. */
    method SizeScalar(n: Node) returns (sz: nat)
      requires Storable(n) && (n.Scalar? || n.FloatNode?) && !failed
      modifies `failed
      ensures failed <==> !Supported(n)
      ensures !failed ==> sz == |Tags(n)| + |ScalarBytes(n)|
    {
      hide Chain, IntScan, TagHeads, FloatBytes, FloatWidth, SimpleOf, Utf8.Valid;
      sz := 0;
      var tags := SizeTags(n.tag);
      if tags == None {
        failed := true;
        return;
      }
      if n.FloatNode? {
        return tags.value + 1 + FloatWidth(n.bits);
      }
      if NumberTag(n.tagId) {
        var num := IntScan(n.value);
        if num == None {
          failed := true;
          return;
        }
        return tags.value + ArgBytes(if num.value < 0 then 0 - (num.value + 1) else num.value);
      }
      if n.tagId == TAG_BOOL || n.tagId == TAG_NULL {
        return tags.value + 1;
      }
      if n.tag == [] {
        var sv := SimpleWord(n.value);
        if sv.Some? {
          return tags.value + if sv.value < 24 then 1 else 2;
        }
      }
      return tags.value + ArgBytes(|n.value|) + |n.value|;
    }

    method SizeKid(n: Node, ghost visit: seq<nat>, ghost k: nat, kid: Node, sz: nat,
                   ghost base: nat, ghost from: seq<Prep>)
      returns (total: nat)
      requires (n.Sequence? || n.Mapping?) && Storable(n) && Indices(visit, |n.kids|) && k < |visit|
      requires kid == n.kids[visit[k]] && !failed && Sized(n, canonical, visit, k, failed, sz - base, maps, from)
      modifies `maps, `failed
      ensures Sized(n, canonical, visit, k + 1, failed, total - base, maps, from)
      ensures !failed ==> total >= base && old(maps) <= maps
      decreases n, 0
    {
      hide Storable, Supported, Sized;
      StorableKid(n, visit[k]);
      SizedRange(n, canonical, visit, k, sz - base, maps, from);
      var one := SizeItem(kid);
      total := sz + one;
      SizedStep(n, canonical, visit, k, failed, sz - base, one, old(maps), maps, from);
    }

    /** cbor_size_item: the size the write pass will fill, and the canonical preparations it will use. */
    method SizeItem(n: Node) returns (sz: nat)
      requires Storable(n) && !failed
      modifies `maps, `failed
      ensures failed <==> !Supported(n)
      ensures !failed ==> sz == |ItemBytes(n, canonical)| && maps == old(maps) + Preps(n, canonical)
      decreases n, 2
    {
      hide Chain, Storable, TagHeads, Visit, ItemsBytes, KidPreps, HeadBytes, ScalarBytes;
      if n.Scalar? || n.FloatNode? {
        sz := SizeScalar(n);
        return;
      }
      var tags := SizeTags(n.tag);
      if tags == None || n.Alias? {
        failed := true;
        return 0;
      }
      if n.Sequence? {
        sz := SizeSequence(n, tags.value);
      } else {
        sz := SizeMapping(n, tags.value);
      }
    }

    method SizeSequence(n: Node, tags: nat) returns (sz: nat)
      requires n.Sequence? && Storable(n) && !failed && Chain(n.tag).Some? && tags == |Tags(n)|
      modifies `maps, `failed
      ensures failed <==> !Supported(n)
      ensures !failed ==> sz == |ItemBytes(n, canonical)| && maps == old(maps) + Preps(n, canonical)
      decreases n, 1
    {
      hide Sized, Chain, Supported, ItemBytes, Preps, Storable, TagHeads;
      ghost var visit, from := Iota(|n.kids|), maps;
      CountFits(n);
      sz := tags + ArgBytes(|n.kids|);
      ghost var base := sz;
      SizedStart(n, canonical, visit, maps);
      assert from == old(maps) + OwnPrep(n, canonical);
      var k := 0;
      while k < |n.kids| && !failed
        invariant k <= |n.kids| && Sized(n, canonical, visit, k, failed, sz - base, maps, from)
      {
        sz := SizeKid(n, visit, k, n.kids[k], sz, base, from);
        k := k + 1;
      }
      SizedEnd(n, canonical, visit, k, failed, sz - base, maps, from, old(maps));
      if failed {
        return 0;
      }
    }

    method SizeMapping(n: Node, tags: nat) returns (sz: nat)
      requires n.Mapping? && Storable(n) && !failed && Chain(n.tag).Some? && tags == |Tags(n)|
      modifies `maps, `failed
      ensures failed <==> !Supported(n)
      ensures !failed ==> sz == |ItemBytes(n, canonical)| && maps == old(maps) + Preps(n, canonical)
      decreases n, 1
    {
      hide Sized, Chain, Supported, ItemBytes, Preps, Storable, TagHeads, KeysOk, Visit, PrepOf;
      var pairs := Pairs(n);
      CountFits(n);
      sz := tags + ArgBytes(pairs);
      var mi := |maps|;
      if canonical {
        CanonPrepare(n);
        if failed {
          BadKeys(n);
          return 0;
        }
      }
      ghost var visit, from, base := Visit(n, canonical), maps, sz;
      SizedStart(n, canonical, visit, maps);
      assert from == old(maps) + OwnPrep(n, canonical);
      var p := 0;
      while p < pairs && !failed
        invariant p <= pairs && Sized(n, canonical, visit, 2 * p, failed, sz - base, maps, from)
        invariant !failed ==> from <= maps
      {
        VisitPair(n, canonical, p);
        if canonical {
          sz := SizeKid(n, visit, 2 * p, maps[mi].child[maps[mi].order[p] * 2], sz, base, from);
          if !failed {
            sz := SizeKid(n, visit, 2 * p + 1, maps[mi].child[maps[mi].order[p] * 2 + 1], sz, base, from);
          } else {
            SizedFailed(n, canonical, visit, 2 * p + 1, sz - base, maps, from);
          }
        } else {
          sz := SizeKid(n, visit, 2 * p, n.kids[2 * p], sz, base, from);
          if !failed {
            sz := SizeKid(n, visit, 2 * p + 1, n.kids[2 * p + 1], sz, base, from);
          } else {
            SizedFailed(n, canonical, visit, 2 * p + 1, sz - base, maps, from);
          }
        }
        p := p + 1;
      }
      SizedEnd(n, canonical, visit, 2 * p, failed, sz - base, maps, from, old(maps));
      if failed {
        return 0;
      }
    }

    /** cbor_write_scalar; the node's tags are already written. */
    method WriteScalar(n: Node, b: Buffer)
      requires Encodable(n) && (n.Scalar? || n.FloatNode?) && b.Room(|ScalarBytes(n)|)
      modifies b`pos, b.out
      ensures b.pos == old(b.pos) + |ScalarBytes(n)| && b.Room(0)
      ensures b.Written() == old(b.Written()) + ScalarBytes(n)
    {
      hide Chain, IntScan, IntBytes, FloatBytes, FloatWidth, TextBytes;
      if n.FloatNode? {
        FloatSize(n.bits);
        b.PutFloat(n.bits);
      } else if NumberTag(n.tagId) {
        PutInt(IntScan(n.value).value, b);
      } else if n.tagId == TAG_BOOL {
        b.Put(if BoolValue(n.value) then 0xF5 else 0xF4);
      } else if n.tagId == TAG_NULL {
        b.Put(0xF6);
      } else {
        PutText(n.tag != [], n.value, b);
      }
    }

    method WriteKid(n: Node, ghost visit: seq<nat>, ghost k: nat, kid: Node, b: Buffer, ghost base: seq<byte>, ghost from: nat)
      requires VisitOk(n, visit) && k < |visit| && kid == n.kids[visit[k]]
      requires b.Room(0) && Tracked(n, canonical, visit, k, b.Written(), base, nextMap, from)
      requires |base| + |ItemsBytes(n, canonical, visit)| <= b.out.Length
      requires Holds(maps, from, KidPreps(n, canonical, visit))
      modifies `nextMap, b`pos, b.out
      ensures b.Room(0) && Tracked(n, canonical, visit, k + 1, b.Written(), base, nextMap, from)
      decreases n, 0
    {
      hide ItemsBytes, KidPreps, ItemBytes, Preps, Encodable;
      ItemsStep(n, canonical, visit, k);
      ItemsPrefix(n, canonical, visit, k + 1);
      HeldPart(maps, from, KidPreps(n, canonical, visit), KidPreps(n, canonical, visit[..k]), Preps(kid, canonical));
      WriteItem(kid, b);
      assert base + ItemsBytes(n, canonical, visit[..k]) + ItemBytes(kid, canonical)
          == base + (ItemsBytes(n, canonical, visit[..k]) + ItemBytes(kid, canonical));
    }

    /**
     * cbor_write_item: exactly the item's bytes, taking for each map exactly the preparation the sizing pass
     * built for it.
     */
    method WriteItem(n: Node, b: Buffer)
      requires Encodable(n) && b.Room(|ItemBytes(n, canonical)|) && Holds(maps, nextMap, Preps(n, canonical))
      modifies `nextMap, b`pos, b.out
      ensures b.Room(0) && b.Written() == old(b.Written()) + ItemBytes(n, canonical)
      ensures nextMap == old(nextMap) + |Preps(n, canonical)|
      decreases n, 3
    {
      hide Chain, TagHeads, Visit, ItemsBytes, KidPreps, ContainerHeadBytes, ScalarBytes, Holds, Encodable, VisitOk, Preps;
      EncodableParts(n);
      PutTags(n.tag, b);
      if n.Scalar? || n.FloatNode? {
        NoContainer(n, canonical);
        WriteScalar(n, b);
      } else {
        PrepsSplit(n, canonical);
        WriteContainer(n, b);
      }
    }

    method WriteContainer(n: Node, b: Buffer)
      requires (n.Sequence? || (n.Mapping? && (canonical ==> KeysOk(n)))) && Encodable(n) && VisitOk(n, Visit(n, canonical))
      requires b.Room(|ContainerHeadBytes(n)| + |ItemsBytes(n, canonical, Visit(n, canonical))|)
      requires Holds(maps, nextMap, Preps(n, canonical))
      modifies `nextMap, b`pos, b.out
      ensures b.Room(0)
      ensures b.Written() == old(b.Written()) + (ContainerHeadBytes(n) + ItemsBytes(n, canonical, Visit(n, canonical)))
      ensures nextMap == old(nextMap) + |Preps(n, canonical)|
      decreases n, 2
    {
      hide Visit, ItemsBytes, KidPreps, HeadBytes, KeysOk, Holds, PrepOf, Encodable, VisitOk, Preps, OwnPrep;
      EncodableParts(n);
      PrepsSplit(n, canonical);
      if n.Sequence? {
        b.PutHead(4, |n.kids|);
        WriteSequence(n, b);
      } else {
        b.PutHead(5, Pairs(n));
        WriteMapping(n, b);
      }
    }

    method WriteSequence(n: Node, b: Buffer)
      requires n.Sequence? && VisitOk(n, Visit(n, canonical)) && b.Room(|ItemsBytes(n, canonical, Visit(n, canonical))|)
      requires Holds(maps, nextMap, KidPreps(n, canonical, Visit(n, canonical)))
      modifies `nextMap, b`pos, b.out
      ensures b.Room(0) && b.Written() == old(b.Written()) + ItemsBytes(n, canonical, Visit(n, canonical))
      ensures nextMap == old(nextMap) + |KidPreps(n, canonical, Visit(n, canonical))|
      decreases n, 1
    {
      hide ItemsBytes, KidPreps, VisitOk, Holds, Tracked;
      ghost var visit, base, from := Visit(n, canonical), b.Written(), nextMap;
      TrackStart(n, canonical, visit, base, from);
      var k := 0;
      while k < |n.kids|
        invariant k <= |n.kids| && b.Room(0) && Tracked(n, canonical, visit, k, b.Written(), base, nextMap, from)
      {
        WriteKid(n, visit, k, n.kids[k], b, base, from);
        k := k + 1;
      }
      TrackEnd(n, canonical, visit, b.Written(), base, nextMap, from);
    }

    method WriteMapping(n: Node, b: Buffer)
      requires n.Mapping? && (canonical ==> KeysOk(n))
      requires VisitOk(n, Visit(n, canonical)) && b.Room(|ItemsBytes(n, canonical, Visit(n, canonical))|)
      requires Holds(maps, nextMap, OwnPrep(n, canonical) + KidPreps(n, canonical, Visit(n, canonical)))
      modifies `nextMap, b`pos, b.out
      ensures b.Room(0) && b.Written() == old(b.Written()) + ItemsBytes(n, canonical, Visit(n, canonical))
      ensures nextMap == old(nextMap) + |OwnPrep(n, canonical) + KidPreps(n, canonical, Visit(n, canonical))|
      decreases n, 1
    {
      hide ItemsBytes, KidPreps, VisitOk, Holds, Tracked, KeysOk, PrepOf, Visit;
      var pairs := Pairs(n);
      ghost var visit := Visit(n, canonical);
      HeldHead(maps, nextMap, OwnPrep(n, canonical), KidPreps(n, canonical, visit));
      var cm := Prep([], []);
      var prepared := canonical && nextMap < |maps|;
      if prepared {
        cm := maps[nextMap];
        nextMap := nextMap + 1;
      }
      ghost var base, from := b.Written(), nextMap;
      TrackStart(n, canonical, visit, base, from);
      var p := 0;
      while p < pairs
        invariant p <= pairs && b.Room(0) && Tracked(n, canonical, visit, 2 * p, b.Written(), base, nextMap, from)
      {
        VisitPair(n, canonical, p);
        if prepared {
          WriteKid(n, visit, 2 * p, cm.child[cm.order[p] * 2], b, base, from);
          WriteKid(n, visit, 2 * p + 1, cm.child[cm.order[p] * 2 + 1], b, base, from);
        } else {
          WriteKid(n, visit, 2 * p, n.kids[2 * p], b, base, from);
          WriteKid(n, visit, 2 * p + 1, n.kids[2 * p + 1], b, base, from);
        }
        p := p + 1;
      }
      VisitWidth(n, canonical);
      TrackEnd(n, canonical, visit, b.Written(), base, nextMap, from);
    }
  }

  lemma StorableKid(n: Node, k: nat)
    requires (n.Sequence? || n.Mapping?) && Storable(n) && k < |n.kids|
    ensures Storable(n.kids[k])
  {}

  /** cbor_run's answers; Diverged is its answer when the write pass misses the counted size. */
  datatype Answer = Encoded | NoDocument | Refused | Diverged

  /**
   * cbor_run over a document's roots: the first one is encoded. The needed size always comes back; bytes go
   * out only when the buffer has room for all of them.
   */
  method Run(docs: seq<Node>, canonical: bool, out: array?<byte>, cap: nat)
    returns (status: Answer, outLen: nat, written: bool)
    requires forall k :: 0 <= k < |docs| ==> Storable(docs[k])
    requires out != null ==> cap <= out.Length
    modifies out
    ensures status == if docs == [] then NoDocument else if Supported(docs[0]) then Encoded else Refused
    ensures status == Encoded ==> outLen == |ItemBytes(docs[0], canonical)|
    ensures written <==> status == Encoded && out != null && outLen <= cap
    ensures written ==> out[..outLen] == ItemBytes(docs[0], canonical)
    ensures !written && out != null ==> out[..] == old(out[..])
  {
    hide ItemBytes, Preps, Storable, Supported;
    outLen, written := 0, false;
    if docs == [] {
      return NoDocument, 0, false;
    }
    var e := new Encoder(canonical);
    var total := e.SizeItem(docs[0]);
    if e.failed {
      return Refused, 0, false;
    }
    if out == null || cap < total {
      return Encoded, total, false;
    }
    assert e.maps == [] + Preps(docs[0], canonical) == Preps(docs[0], canonical);
    assert e.maps[0..|e.maps|] == e.maps;
    var b := new Buffer(out);
    e.WriteItem(docs[0], b);
    if b.pos != total {
      status := Diverged;
      return;
    }
    return Encoded, b.pos, true;
  }

  /** yeptris_cbor_encode: size, allocate, write; the second run fills the allocation exactly. */
  method Encode(docs: seq<Node>, canonical: bool) returns (bytes: Option<seq<byte>>)
    requires forall k :: 0 <= k < |docs| ==> Storable(docs[k])
    ensures bytes == if docs != [] && Supported(docs[0]) then Some(ItemBytes(docs[0], canonical)) else None
    ensures bytes.Some? && canonical ==> CborOrder.MapsInOrder(docs[0])
  {
    hide ItemBytes, Storable, Supported, CborOrder.MapsInOrder;
    if docs != [] && Supported(docs[0]) { CborOrder.CanonicalByBytes(docs[0]); }
    var status, need, written := Run(docs, canonical, null, 0);
    if status != Encoded || need == 0 {
      if status == Encoded { NeverEmpty(docs[0], canonical); }
      return None;
    }
    var buf := new byte[need];
    var again, wrote, went := Run(docs, canonical, buf, need);
    assert again == Encoded && went && wrote == need;
    assert buf[..need] == buf[..];
    return Some(buf[..]);
  }

  /** Size 0 means failure to the callers: no item is that short. */
  lemma NeverEmpty(n: Node, canonical: bool)
    requires Encodable(n)
    ensures |ItemBytes(n, canonical)| > 0
  {
    hide Chain, IntScan, SimpleOf, Utf8.Valid, FloatWidth, TagHeads, Visit, ItemsBytes;
  }
}
