/** The transcoder against the expanded tree: what the CBOR face of a Marshal stream is. */
module MarshalCbor {
  import opened Wrappers
  import opened Bytes
  import opened MarshalNumber
  import opened MarshalWrite
  import opened MarshalTree
  import opened MarshalRead
  import opened MarshalTranscode
  import opened MarshalExpand
  import CborHeads
  import CborEncode

  // ---- object numbers and link slots ------------------------------------------------------

  /** The slot gives a link to it what the names say it holds. */
  predicate SlotIs(host: Host, o: Memo, h: Held) {
    match h
    case Opened => o.str.None? && (o.kind == 0x5B || o.kind == 0x7B)
    case Spelt(sp) =>
      Spellable(sp) &&
      match sp
      case Text(p) => o.str == Some(Payload(p, Utf8Text))
      case FloatWord(p) => o.str.None? && o.kind == 0x66 && o.span.Some? && o.span == FloatItem(host, p)
      case Whole(negative, v, _) =>
        o.str.None? && o.kind == 0x6C && v < TWO_64 && o.span == Some(IntegerItem(host, Sign(negative, v)))
      case _ => false
  }

  /** The reader's slots are those of the names, one by one. */
  predicate Slots(host: Host, objs: seq<Memo>, memo: seq<Held>) {
    |objs| == |memo| && forall k :: 0 <= k < |memo| ==> SlotIs(host, objs[k], memo[k])
  }

  predicate Linked(x: Source, st: State, s: Names, m: Memory) { Matches(st, s) && Slots(x.host, m.objs, s.memo) }

  lemma SlotAdded(host: Host, objs: seq<Memo>, memo: seq<Held>, o: Memo, h: Held)
    requires Slots(host, objs, memo) && SlotIs(host, o, h)
    ensures Slots(host, objs + [o], memo + [h])
  {
  }

  // ---- one value, written and read ----------------------------------------------------------

  predicate EncodesAs(n: Node, canonical: bool, key: bool, b: seq<byte>) {
    && CborEncode.Encodable(n) && CborEncode.ItemBytes(n, canonical) == b
    && (key ==> CborEncode.KeyOk(n) && CborEncode.KeyBytes(n) == b)
  }

  predicate Leads(c: Config, m: Memory) { m.at < |c.s| && KeyLead(c.s[m.at]) }

  /** The walk of what was written against the expansion by slots. */
  predicate ReadAs(x: Source, c: Config, key: bool, m: Memory, e: Emitted, y: Expansion, v: Item) {
    e.Emitted? &&
    match y
    case Unmade => v.Declined? || (key && !Leads(c, m))
    case Made(n, s) =>
      && v.Item? && v.m.at == m.at + |e.bytes| && EncodesAs(n, c.canonical, key, v.bytes) && (key ==> Leads(c, m))
      && Linked(x, e.st, s, v.m)
  }

  ghost predicate Ready(x: Source, c: Config, i: nat, st: State, s: Names, m: Memory) {
    Here(x, i, st) && Linked(x, st, s, m) && c.host == x.host && m.at <= |c.s|
  }

  lemma SpellingLeads(sp: Spelling)
    requires Spellable(sp)
    ensures SpellingBytes(sp) != [] && (KeyLead(SpellingBytes(sp)[0]) <==> !(sp.NullWord? || sp.Truth?))
  {
    hide LongBytes, LimbCount;
  }

  lemma TookMatches(st: State, s: Names, sp: Spelled, after: State)
    requires Matches(st, s)
    requires after == if Registering(sp) then st.(nreg := st.nreg + 1, last := Registered(st.nreg)) else st.(last := Immediate)
    ensures Matches(after, Took(s, sp))
  {
  }

  /** The slots a scalar leaves are those the names take down. */
  lemma TookSlots(host: Host, key: bool, objs: seq<Memo>, s: Names, sp: Spelled, b: seq<byte>)
    requires Slots(host, objs, s.memo) && SpellingItem(host, key, sp) == Some(b)
    ensures Slots(host, objs + SpellingMemos(sp, b), Took(s, sp).memo)
  {
    hide FloatItem, StringItem, Slots, IntegerItem, LimbCount;
    var memos := SpellingMemos(sp, b);
    if Registering(sp) || Bulky(sp) {
      assert memos == [memos[0]];
      SlotAdded(host, objs, s.memo, memos[0], Spelt(sp));
    } else {
      assert objs + memos == objs && Took(s, sp).memo == s.memo;
    }
  }

  /** A scalar, spelt in place or copied by a link to it. */
  lemma ScalarRead(x: Source, c: Config, rec: ScalarRecord, key: bool, st: State, s: Names, m: Memory, depth: nat, e: Emitted)
    requires Linked(x, st, s, m) && c.host == x.host && depth < MAX_DEPTH
    requires e.Emitted? && WriteScalar(rec, x.compat, st) == Written(e.bytes, e.st) && Stands(c.s, m.at, e.bytes)
    ensures ReadAs(x, c, key, m, e, ExpandScalar(x.host, x.compat, rec, key, s), Value(c, m, key, true, depth, false))
  {
    hide SpellingOf, SpellingBytes, Value, NodeOf, FloatItem, StringItem, WriteScalar, SpellingItem, CborEncode.Encodable, CborEncode.ItemBytes,
      CborEncode.KeyOk, CborEncode.KeyBytes, Matches, Slots, Took, SpellingMemos;
    var sp := SpellingOf(rec, x.compat);
    ScalarWrites(rec, x.compat, st);
    SpellingLeads(sp);
    StandsFrom(c.s, m.at, e.bytes);
    ScalarReads(c, m, key, depth, sp);
    ScalarEncodes(x.host, key, sp);
    var y := ExpandScalar(x.host, x.compat, rec, key, s);
    if y.Made? {
      TookMatches(st, s, sp, e.st);
      TookSlots(x.host, key, m.objs, s, sp, Value(c, m, key, true, depth, false).bytes);
    }
  }

  /** A link to an object number. */
  lemma NumberRead(c: Config, m: Memory, key: bool, depth: nat, id: nat)
    requires id < 0x1_0000_0000 && Stands(c.s, m.at, [0x40] + LongBytes(id)) && depth < MAX_DEPTH
    ensures Value(c, m, key, true, depth, false)
         == if id < |m.objs| then Out(true, LinkItem(c.host, key, m.objs[id]), m.(at := m.at + 1 + |LongBytes(id)|)) else Declined
    ensures Leads(c, m)
  {
    hide LongBytes, TakeLong, LinkItem;
    StandsSplit(c.s, m.at, [0x40], LongBytes(id));
    StandsFrom(c.s, m.at, [0x40]);
    LongReads(c.s, m.at + 1, id);
  }

  /** A slot gives the item of what it holds, in a value or a key place. */
  lemma SlotItem(host: Host, key: bool, o: Memo, h: Held)
    requires SlotIs(host, o, h)
    ensures LinkItem(host, key, o) == if h.Spelt? then SpellingItem(host, key, h.sp) else None
    ensures h.Spelt? ==> Spellable(h.sp) && !h.sp.NullWord? && !h.sp.Truth?
  {
    hide CborHeads.FloatBytes, CborHeads.IntBytes, StringItem, LimbCount;
    if h.Spelt? && h.sp.Whole? { IntegerNotEmpty(host, Sign(h.sp.negative, h.sp.v)); }
  }

  lemma IntegerNotEmpty(host: Host, x: int)
    ensures IntegerItem(host, x) != []
  {
  }

  /** A link expands to what the slot of its number holds, or is written again. */
  lemma LinkRead(x: Source, c: Config, name: seq<byte>, key: bool, st: State, s: Names, m: Memory, depth: nat, e: Emitted)
    requires Linked(x, st, s, m) && c.host == x.host && depth < MAX_DEPTH && Sound(st)
    requires e.Emitted? && WriteAlias(name, x.compat, st) == Written(e.bytes, e.st) && Stands(c.s, m.at, e.bytes)
    ensures ReadAs(x, c, key, m, e, ExpandLink(x.host, x.compat, name, key, s, false), Value(c, m, key, true, depth, false))
  {
    hide ReadAs, Slots, EnvMatch, Find, Lookup, Value, WriteScalar, LongBytes, ExpandScalar, SpellingOf;
    var k := FindsIndex(st.anchors, s.env, name);
    assert k >= 0;
    AgreesAt(st, s.env, k);
    match s.env[k].what
    case Copied(rec) => ScalarRead(x, c, rec, key, st, s, m, depth, e);
    case Numbered(id, held) =>
      NumberRead(c, m, key, depth, id);
      SlotRead(x, c, id, held, key, st, s, m, depth, e);
  }

  lemma SlotAt(host: Host, objs: seq<Memo>, memo: seq<Held>, id: nat)
    requires Slots(host, objs, memo)
    ensures |objs| == |memo| && (id < |memo| ==> SlotIs(host, objs[id], memo[id]))
  {
  }

  lemma SlotRead(x: Source, c: Config, id: nat, held: Held, key: bool, st: State, s: Names, m: Memory, depth: nat, e: Emitted)
    requires Linked(x, st, s, m) && c.host == x.host && id < 0x1_0000_0000 && Leads(c, m)
    requires e.Emitted? && e.bytes == [0x40] + LongBytes(id) && e.st == st.(last := Immediate)
    requires Value(c, m, key, true, depth, false)
          == if id < |m.objs| then Out(true, LinkItem(c.host, key, m.objs[id]), m.(at := m.at + 1 + |LongBytes(id)|)) else Declined
    ensures var h := Brings(s, id, held, false);
      var n := if h.Spelt? then NodeOf(x.host, key, h.sp) else None;
      ReadAs(x, c, key, m, e, if n.Some? then Made(n.value, s) else Unmade, Value(c, m, key, true, depth, false))
  {
    hide Slots, EnvMatch, Value, LongBytes, SlotIs, LinkItem, NodeOf, SpellingItem, CborEncode.Encodable, CborEncode.ItemBytes,
      CborEncode.KeyOk, CborEncode.KeyBytes;
    SlotAt(x.host, m.objs, s.memo, id);
    if id < |m.objs| {
      var h := s.memo[id];
      SlotItem(x.host, key, m.objs[id], h);
      if h.Spelt? { ScalarEncodes(x.host, key, h.sp); }
    }
  }

  // ---- branches ------------------------------------------------------------------------------

  predicate AllEncodable(nodes: seq<Node>) {
    forall k :: 0 <= k < |nodes| ==> CborEncode.Encodable(nodes[k])
  }

  function Cat(nodes: seq<Node>, canonical: bool): seq<byte>
    requires AllEncodable(nodes)
  {
    if nodes == [] then [] else CborEncode.ItemBytes(nodes[0], canonical) + Cat(nodes[1..], canonical)
  }

  lemma {:induction false} CatAppend(nodes: seq<Node>, n: Node, canonical: bool)
    requires AllEncodable(nodes) && CborEncode.Encodable(n)
    ensures AllEncodable(nodes + [n]) && Cat(nodes + [n], canonical) == Cat(nodes, canonical) + CborEncode.ItemBytes(n, canonical)
  {
    hide CborEncode.Encodable, CborEncode.ItemBytes;
    if nodes == [] {
      assert nodes + [n] == [n] && [n][1..] == [];
    } else {
      CatAppend(nodes[1..], n, canonical);
      assert (nodes + [n])[1..] == nodes[1..] + [n];
    }
  }

  lemma BranchEncodable(t: Tree, nodes: seq<Node>)
    requires IsBranch(t) && AllEncodable(nodes) && |nodes| < TWO_64
    ensures CborEncode.Encodable(BranchNode(t, nodes)) && BranchNode(t, nodes).tag == []
  {
  }

  lemma {:induction false} ListItems(n: Node, canonical: bool, k: nat)
    requires n.Sequence? && CborEncode.Encodable(n) && k <= |n.kids| && AllEncodable(n.kids)
    ensures CborEncode.VisitOk(n, CborEncode.Iota(k))
    ensures CborEncode.ItemsBytes(n, canonical, CborEncode.Iota(k)) == Cat(n.kids[..k], canonical)
  {
    hide CborEncode.Encodable, CborEncode.ItemBytes, Cat;
    if k > 0 {
      ListItems(n, canonical, k - 1);
      assert CborEncode.Iota(k)[..k - 1] == CborEncode.Iota(k - 1);
      assert n.kids[..k] == n.kids[..k - 1] + [n.kids[k - 1]];
      CatAppend(n.kids[..k - 1], n.kids[k - 1], canonical);
    } else {
      NoCat(canonical);
    }
  }

  lemma NoCat(canonical: bool)
    ensures Cat([], canonical) == []
  {
  }

  lemma UntaggedBranch(n: Node, canonical: bool)
    requires (n.Sequence? || n.Mapping?) && CborEncode.Encodable(n) && n.tag == []
    ensures (n.Mapping? ==> CborEncode.KeysOk(n)) && CborEncode.VisitOk(n, CborEncode.Visit(n, canonical))
    ensures CborEncode.ItemBytes(n, canonical)
         == CborEncode.ContainerHeadBytes(n) + CborEncode.ItemsBytes(n, canonical, CborEncode.Visit(n, canonical))
  {
    hide CborEncode.ItemsBytes, CborEncode.Visit, CborEncode.KeysOk;
    CborEncode.EncodableVisit(n, canonical);
    assert CborEncode.Tags(n) == [];
  }

  lemma ListItem(n: Node, canonical: bool)
    requires n.Sequence? && CborEncode.Encodable(n) && n.tag == [] && AllEncodable(n.kids)
    ensures |n.kids| < TWO_64
    ensures CborEncode.ItemBytes(n, canonical) == CborHeads.HeadBytes(4, |n.kids|) + Cat(n.kids, canonical)
  {
    hide CborEncode.ItemsBytes, CborEncode.ItemBytes, CborHeads.HeadBytes, Cat;
    UntaggedBranch(n, canonical);
    ListItems(n, canonical, |n.kids|);
    assert n.kids[..|n.kids|] == n.kids;
    assert CborEncode.Visit(n, canonical) == CborEncode.Iota(|n.kids|);
  }

  /** The rows the reader gathered are the pairs of the mapping. */
  predicate RowsOf(kids: seq<Node>, canonical: bool, keys: seq<seq<byte>>, pairs: seq<seq<byte>>) {
    && AllEncodable(kids) && |kids| == 2 * |keys| && |pairs| == |keys|
    && forall p :: 0 <= p < |keys| ==> RowOf(kids[2 * p], kids[2 * p + 1], canonical, keys[p], pairs[p])
  }

  predicate RowOf(k: Node, v: Node, canonical: bool, key: seq<byte>, pair: seq<byte>) {
    && EncodesAs(k, canonical, true, key)
    && CborEncode.Encodable(v) && pair == key + CborEncode.ItemBytes(v, canonical)
  }

  lemma RowsKeys(n: Node, canonical: bool, keys: seq<seq<byte>>, pairs: seq<seq<byte>>)
    requires n.Mapping? && RowsOf(n.kids, canonical, keys, pairs)
    ensures CborEncode.KeysOk(n) && CborEncode.Keys(n) == keys && CborEncode.Pairs(n) == |keys|
  {
    hide CborEncode.KeyOk, CborEncode.KeyBytes, CborEncode.Encodable, CborEncode.ItemBytes;
    forall p | 0 <= p < CborEncode.Pairs(n)
      ensures CborEncode.KeyOk(n.kids[2 * p]) && CborEncode.KeyBytes(n.kids[2 * p]) == keys[p]
    {
      assert RowOf(n.kids[2 * p], n.kids[2 * p + 1], canonical, keys[p], pairs[p]);
    }
  }

  lemma {:induction false} OrderedRows(n: Node, canonical: bool, keys: seq<seq<byte>>, pairs: seq<seq<byte>>, order: seq<nat>)
    requires n.Mapping? && RowsOf(n.kids, canonical, keys, pairs) && CborEncode.Indices(order, |pairs|)
    ensures CborEncode.VisitOk(n, CborEncode.KeysAndValues(order))
    ensures CborEncode.ItemsBytes(n, canonical, CborEncode.KeysAndValues(order)) == InOrder(pairs, order)
    decreases |order|
  {
    hide CborEncode.Encodable, CborEncode.ItemBytes, CborEncode.ItemsBytes, CborEncode.KeysAndValues, CborEncode.VisitOk, RowsOf;
    if order != [] {
      var front, last := order[..|order| - 1], order[|order| - 1];
      OrderedRows(n, canonical, keys, pairs, front);
      RowAt(n.kids, canonical, keys, pairs, last);
      VisitLast(order);
      TwoMore(n, canonical, CborEncode.KeysAndValues(front), 2 * last, 2 * last + 1);
      var before, k, v := CborEncode.ItemsBytes(n, canonical, CborEncode.KeysAndValues(front)), keys[last],
        CborEncode.ItemBytes(n.kids[2 * last + 1], canonical);
      assert before + k + v == before + (k + v);
    } else {
      NoRowsVisited(n, canonical);
    }
  }

  lemma NoRowsVisited(n: Node, canonical: bool)
    requires n.Mapping?
    ensures CborEncode.VisitOk(n, CborEncode.KeysAndValues([]))
    ensures CborEncode.ItemsBytes(n, canonical, CborEncode.KeysAndValues([])) == []
  {
  }

  lemma VisitLast(order: seq<nat>)
    requires order != []
    ensures CborEncode.KeysAndValues(order)
         == CborEncode.KeysAndValues(order[..|order| - 1]) + [2 * order[|order| - 1], 2 * order[|order| - 1] + 1]
  {
  }

  lemma RowAt(kids: seq<Node>, canonical: bool, keys: seq<seq<byte>>, pairs: seq<seq<byte>>, p: nat)
    requires RowsOf(kids, canonical, keys, pairs) && p < |pairs|
    ensures |keys| == |pairs| && 2 * p + 1 < |kids|
    ensures CborEncode.Encodable(kids[2 * p]) && CborEncode.ItemBytes(kids[2 * p], canonical) == keys[p]
    ensures CborEncode.Encodable(kids[2 * p + 1]) && pairs[p] == keys[p] + CborEncode.ItemBytes(kids[2 * p + 1], canonical)
  {
    hide CborEncode.Encodable, CborEncode.ItemBytes, CborEncode.KeyOk, CborEncode.KeyBytes;
    assert RowOf(kids[2 * p], kids[2 * p + 1], canonical, keys[p], pairs[p]);
  }

  lemma TwoMore(n: Node, canonical: bool, v: seq<nat>, a: nat, b: nat)
    requires CborEncode.VisitOk(n, v) && a < |n.kids| && b < |n.kids|
    requires CborEncode.Encodable(n.kids[a]) && CborEncode.Encodable(n.kids[b])
    ensures CborEncode.VisitOk(n, v + [a, b])
    ensures CborEncode.ItemsBytes(n, canonical, v + [a, b])
         == CborEncode.ItemsBytes(n, canonical, v) + CborEncode.ItemBytes(n.kids[a], canonical) + CborEncode.ItemBytes(n.kids[b], canonical)
  {
    hide CborEncode.Encodable, CborEncode.ItemBytes;
    assert (v + [a, b])[..|v| + 1] == v + [a] && (v + [a])[..|v|] == v;
  }

  /** Sorting the rows as the reader does and sorting the pairs as the encoder does give the same item. */
  lemma TableItems(n: Node, canonical: bool, keys: seq<seq<byte>>, pairs: seq<seq<byte>>)
    requires n.Mapping? && CborEncode.Encodable(n) && n.tag == [] && RowsOf(n.kids, canonical, keys, pairs)
    ensures |pairs| < TWO_64 && CborEncode.ItemBytes(n, canonical) == TableItem(keys, pairs, canonical)
    ensures Clash(n) <==> Twice(keys)
  {
    hide CborEncode.ItemsBytes, CborEncode.ItemBytes, CborHeads.HeadBytes, CborEncode.OrderOf, CborEncode.KeysOk, CborEncode.KeysAndValues,
      CborEncode.Keys, Twice, RowsOf;
    RowsKeys(n, canonical, keys, pairs);
    UntaggedBranch(n, canonical);
    RowCounts(n.kids, canonical, keys, pairs);
    var order := CborEncode.PairOrder(n, canonical);
    OrderedRows(n, canonical, keys, pairs, order);
    assert CborEncode.Visit(n, canonical) == CborEncode.KeysAndValues(order);
    StorableSize(n);
  }

  lemma RowCounts(kids: seq<Node>, canonical: bool, keys: seq<seq<byte>>, pairs: seq<seq<byte>>)
    requires RowsOf(kids, canonical, keys, pairs)
    ensures |kids| == 2 * |keys| && |pairs| == |keys|
  {
  }

  lemma StorableSize(n: Node)
    requires n.Mapping? && CborEncode.Encodable(n)
    ensures |n.kids| < TWO_64
  {
  }
}
