/** Marshalling a tree and transcoding the stream gives the CBOR item of the tree with its links expanded. */
module MarshalMeaning {
  import opened Wrappers
  import opened Bytes
  import opened MarshalNumber
  import opened MarshalWrite
  import opened MarshalTree
  import opened MarshalRead
  import opened MarshalTranscode
  import opened MarshalExpand
  import opened MarshalCbor
  import CborHeads
  import CborEncode
  import Utf8

  // ---- the arms that hold values -------------------------------------------------------------

  /** The item of an array around what its elements gave. */
  function ListOf(n: nat, r: Item): Item
    requires n < TWO_64
  {
    match r
    case Declined => Declined
    case Item(b, m) => Item(CborHeads.HeadBytes(4, n) + b, m)
  }

  function TableFrom(r: Rows, canonical: bool): Item {
    match r
    case NoRows => Declined
    case Rows(keys, pairs, m) =>
      if |keys| != |pairs| || |keys| >= TWO_64 || Twice(keys) then Declined else Item(TableItem(keys, pairs, canonical), m)
  }

  /** Behind the lead byte and the count. */
  function Inside(c: Config, m: Memory, k: nat): Memory
    requires m.at < |c.s|
  {
    Begin(c.s, m, true).(at := k)
  }

  lemma ListValue(c: Config, m: Memory, depth: nat, n: nat, k: nat)
    requires m.at < |c.s| && c.s[m.at] == 0x5B && depth < MAX_DEPTH && m.at + 1 < k <= |c.s|
    requires TakeLong(c.s, m.at + 1) == Taken(n, k)
    ensures n < TWO_64
    ensures Value(c, m, false, true, depth, false)
         == Finish(ListOf(n, Elements(c, Inside(c, m, k), n, false, true, depth + 1)), |m.objs|, true)
  {
    hide TakeLong, Elements, CborHeads.HeadBytes;
  }

  lemma TableValue(c: Config, m: Memory, depth: nat, n: nat, k: nat)
    requires m.at < |c.s| && c.s[m.at] == 0x7B && depth < MAX_DEPTH && m.at + 1 < k <= |c.s|
    requires TakeLong(c.s, m.at + 1) == Taken(n, k)
    ensures Value(c, m, false, true, depth, false)
         == Finish(TableFrom(TableOf(c, Inside(c, m, k), n, false, true, depth + 1), c.canonical), |m.objs|, true)
  {
    hide TakeLong, TableOf, TableItem, Twice;
  }

  lemma TooDeep(c: Config, m: Memory, key: bool, depth: nat)
    requires m.at <= |c.s| && depth >= MAX_DEPTH
    ensures Value(c, m, key, true, depth, false).Declined?
  {
  }

  // ---- the induction ----------------------------------------------------------------------------

  /** The writer wrote e and the reader stands in front of it. */
  predicate Facing(c: Config, m: Memory, e: Emitted) { e.Emitted? && Stands(c.s, m.at, e.bytes) }

  lemma {:induction false} TreeRead(x: Source, c: Config, i: nat, t: Tree, key: bool, st: State, s: Names, depth: nat, m: Memory)
    requires Ready(x, c, i, st, s, m) && Runs(x.recs, i, Records(t, key)) && Shaped(t) && CountsAt(x, st.openSeq, TreeCounts(t))
    requires i < |x.recs| && Facing(c, m, Emit(x, i, st))
    ensures ReadAs(x, c, key, m, Emit(x, i, st), Expand(x.host, x.compat, t, key, s, depth, false), Value(c, m, key, true, depth, false))
    decreases t, 1
  {
    hide WriteBody, WriteValue, Core, At, Counted, ExpandCore, Matches, Slots, Bears, Value, EncodesAs, LastFits, KeyLead, Extends;
    EmitUnfolds(x, i, t, key, st);
    var anchor := AnchorOf(t);
    if anchor == [] {
      CoreRead(x, c, i, t, key, st, s, depth, m);
    } else {
      AnnounceMatches(st, s, anchor);
      var st1, s1 := Announce(st, anchor), Anchored(s, anchor);
      CoreRead(x, c, i + 1, t, key, st1, s1, depth, m);
      CoreNames(x, i + 1, t, key, st1, s1, depth, false);
      var y := ExpandCore(x.host, x.compat, t, key, s1, depth, false);
      if y.Made? {
        var e := WriteBody(x.recs, x.counts, x.compat, i + 1, st1);
        StillNamed(s, anchor, y.names);
        MatchLength(st, s);
        BoundMatches(x, t, key, e.st, y.names, |s.env|, anchor, s.nreg);
      }
    }
  }

  lemma {:induction false} CoreRead(x: Source, c: Config, i: nat, t: Tree, key: bool, st: State, s: Names, depth: nat, m: Memory)
    requires Ready(x, c, i, st, s, m) && Runs(x.recs, i, Core(t, key)) && Shaped(t) && CountsAt(x, st.openSeq, TreeCounts(t))
    requires i < |x.recs| && Facing(c, m, WriteBody(x.recs, x.counts, x.compat, i, st))
    ensures var e, y, v := WriteBody(x.recs, x.counts, x.compat, i, st), ExpandCore(x.host, x.compat, t, key, s, depth, false),
                           Value(c, m, key, true, depth, false);
      ReadAs(x, c, key, m, e, y, v)
    decreases t, 0
  {
    hide *;
    if depth >= MAX_DEPTH {
      DeepRead(x, c, i, t, key, st, s, depth, m);
    } else if IsBranch(t) {
      BranchRead(x, c, i, t, key, st, s, depth, m);
    } else {
      LeafRead(x, c, i, t, key, st, s, depth, m);
    }
  }

  lemma DeepRead(x: Source, c: Config, i: nat, t: Tree, key: bool, st: State, s: Names, depth: nat, m: Memory)
    requires Ready(x, c, i, st, s, m) && i < |x.recs| && Facing(c, m, WriteBody(x.recs, x.counts, x.compat, i, st)) && depth >= MAX_DEPTH
    ensures var e, y, v := WriteBody(x.recs, x.counts, x.compat, i, st), ExpandCore(x.host, x.compat, t, key, s, depth, false),
                           Value(c, m, key, true, depth, false);
      ReadAs(x, c, key, m, e, y, v)
  {
    hide WriteBody, Value, Linked;
    TooDeep(c, m, key, depth);
  }

  lemma LeafRead(x: Source, c: Config, i: nat, t: Tree, key: bool, st: State, s: Names, depth: nat, m: Memory)
    requires Ready(x, c, i, st, s, m) && Runs(x.recs, i, Core(t, key)) && !IsBranch(t) && depth < MAX_DEPTH
    requires i < |x.recs| && Facing(c, m, WriteBody(x.recs, x.counts, x.compat, i, st))
    ensures var e, y, v := WriteBody(x.recs, x.counts, x.compat, i, st), ExpandCore(x.host, x.compat, t, key, s, depth, false),
                           Value(c, m, key, true, depth, false);
      ReadAs(x, c, key, m, e, y, v)
  {
    hide At, Counted, Linked, Value, ReadAs, ExpandScalar, ExpandLink, WriteScalar, WriteAlias, SpellingOf;
    FirstOf(x.recs, i, Core(t, key));
    HereSound(x, i, st);
    var e := WriteBody(x.recs, x.counts, x.compat, i, st);
    match t
    case Scalar(_, rec) => ScalarRead(x, c, rec.(isKey := key), key, st, s, m, depth, e);
    case Link(name) => LinkRead(x, c, name, key, st, s, m, depth, e);
  }

  lemma BranchKey(x: Source, c: Config, t: Tree, s: Names, depth: nat, m: Memory, e: Emitted, v: Item)
    requires IsBranch(t) && e.Emitted? && !Leads(c, m)
    ensures ReadAs(x, c, true, m, e, ExpandCore(x.host, x.compat, t, true, s, depth, false), v)
  {
  }

  ghost predicate Inwards(x: Source, c: Config, i: nat, t: Tree, st: State, s: Names, m: Memory, k: nat, e: Emitted) {
    && IsBranch(t) && m.at + 1 < k <= |c.s| && c.s[m.at] == (if t.List? then 0x5B else 0x7B)
    && TakeLong(c.s, m.at + 1) == Taken(Announced(t), k) && Announced(t) < 0x1_0000_0000
    && ReadyKids(x, c, i + 1, t, 0, Enter(st), Entered(s), Inside(c, m, k))
    && var kids := EmitKids(x, i + 1, Enter(st));
       e.Emitted? && k + |kids.bytes| == m.at + |e.bytes| && e.st == kids.st.(last := Registered(st.nreg))
  }

  /** Behind the bracket and the count the reader faces the kids, with the branch's own slot and number taken. */
  lemma BranchEnter(x: Source, c: Config, i: nat, t: Tree, key: bool, st: State, s: Names, m: Memory)
    returns (k: nat)
    requires Ready(x, c, i, st, s, m) && Runs(x.recs, i, Core(t, key)) && Shaped(t) && IsBranch(t)
    requires CountsAt(x, st.openSeq, TreeCounts(t))
    requires i < |x.recs| && Facing(c, m, WriteBody(x.recs, x.counts, x.compat, i, st))
    ensures Inwards(x, c, i, t, st, s, m, k, WriteBody(x.recs, x.counts, x.compat, i, st))
  {
    hide WriteElements, WriteBody, Matches, Slots, LongBytes, KidRecords, KidCounts, At, Counted, Core, Shaped, TakeLong;
    BranchUnfolds(x, i, t, key, st);
    BranchCounts(x, st.openSeq, t);
    var kids := EmitKids(x, i + 1, Enter(st));
    var bracket: byte := if t.List? then 0x5B else 0x7B;
    k := HeadStands(c, m.at, bracket, Announced(t), kids.bytes);
    LinkedEnter(x, st, s, m, Inside(c, m, k), bracket);
  }

  lemma LinkedEnter(x: Source, st: State, s: Names, m: Memory, in1: Memory, bracket: byte)
    requires Linked(x, st, s, m) && (bracket == 0x5B || bracket == 0x7B)
    requires in1.objs == m.objs + [Memo(bracket, None, None)]
    ensures Linked(x, Enter(st), Entered(s), in1)
  {
    hide EnvMatch, Slots;
    SlotAdded(x.host, m.objs, s.memo, Memo(bracket, None, None), Opened);
  }

  lemma HeadStands(c: Config, at: nat, bracket: byte, n: nat, rest: seq<byte>) returns (k: nat)
    requires n < 0x1_0000_0000 && Stands(c.s, at, [bracket] + LongBytes(n) + rest)
    ensures at + 1 < k <= |c.s| && c.s[at] == bracket && TakeLong(c.s, at + 1) == Taken(n, k)
    ensures Stands(c.s, k, rest) && k + |rest| == at + |[bracket] + LongBytes(n) + rest|
  {
    hide LongBytes, TakeLong;
    var long := LongBytes(n);
    assert [bracket] + long + rest == [bracket] + (long + rest);
    StandsSplit(c.s, at, [bracket], long + rest);
    StandsSplit(c.s, at + 1, long, rest);
    StandsFrom(c.s, at, [bracket]);
    LongReads(c.s, at + 1, n);
    LongNotEmpty(n);
    k := at + 1 + |long|;
  }

  lemma BranchCounts(x: Source, at: nat, t: Tree)
    requires IsBranch(t) && CountsAt(x, at, TreeCounts(t))
    ensures at < |x.counts| && x.counts[at] == Announced(t) && CountsAt(x, at + 1, KidCounts(t, 0))
  {
    CountsSplit(x, at, [Announced(t)], KidCounts(t, 0));
    assert x.counts[at..at + 1][0] == x.counts[at];
  }

  lemma {:induction false} BranchRead(x: Source, c: Config, i: nat, t: Tree, key: bool, st: State, s: Names, depth: nat, m: Memory)
    requires Ready(x, c, i, st, s, m) && Runs(x.recs, i, Core(t, key)) && Shaped(t) && CountsAt(x, st.openSeq, TreeCounts(t))
    requires IsBranch(t) && depth < MAX_DEPTH
    requires i < |x.recs| && Facing(c, m, WriteBody(x.recs, x.counts, x.compat, i, st))
    ensures var e, y, v := WriteBody(x.recs, x.counts, x.compat, i, st), ExpandCore(x.host, x.compat, t, key, s, depth, false),
                           Value(c, m, key, true, depth, false);
      ReadAs(x, c, key, m, e, y, v)
    decreases t, 0, |t.kids| + 1
  {
    hide WriteElements, WriteBody, Matches, Slots, KidRecords, KidCounts, At, Counted, Core, Shaped, Value, ExpandCore, ReadAs, ExpandKids, Elements,
      TableOf, TakeLong, ListAs, RowsAs, KeyLead, Entered;
    var k := BranchEnter(x, c, i, t, key, st, s, m);
    var e, v, kids := WriteBody(x.recs, x.counts, x.compat, i, st), Value(c, m, key, true, depth, false), EmitKids(x, i + 1, Enter(st));
    if key {
      NoKeyLead(c, m);
      BranchKey(x, c, t, s, depth, m, e, v);
    } else {
      var in1, s1 := Inside(c, m, k), Entered(s);
      var yk := ExpandKids(x.host, x.compat, t, 0, s1, depth + 1, false);
      LinkedCount(x, st, s, m);
      if t.List? {
        ListRead(x, c, i + 1, t, 0, Enter(st), s1, depth + 1, in1);
        ListValue(c, m, depth, |t.kids|, k);
        ListClose(x, c, t, s, depth, m, in1, kids, e, yk, Elements(c, in1, |t.kids|, false, true, depth + 1), v, st.nreg);
      } else {
        RowsRead(x, c, i + 1, t, 0, Enter(st), s1, depth + 1, in1);
        TableValue(c, m, depth, |t.kids| / 2, k);
        TableClose(x, c, t, s, depth, m, in1, kids, e, yk, TableOf(c, in1, |t.kids| / 2, false, true, depth + 1), v, st.nreg);
      }
    }
  }

  lemma LinkedCount(x: Source, st: State, s: Names, m: Memory)
    requires Linked(x, st, s, m)
    ensures |m.objs| == |s.memo|
  {
  }

  lemma NoKeyLead(c: Config, m: Memory)
    requires m.at < |c.s| && (c.s[m.at] == 0x5B || c.s[m.at] == 0x7B)
    ensures !Leads(c, m)
  {
  }

  /** The state behind a branch: its slot complete, its number the last. */
  predicate Closes(c: Config, t: Tree, s: Names, m: Memory, in1: Memory, kids: Emitted, e: Emitted, id: nat) {
    && kids.Emitted? && e.Emitted? && in1.at + |kids.bytes| == m.at + |e.bytes| && e.st == kids.st.(last := Registered(id))
    && IsBranch(t) && |t.kids| < TWO_64 && |m.objs| == |s.memo|
  }

  lemma Closed(x: Source, c: Config, t: Tree, s: Names, m: Memory, in1: Memory, kids: Emitted, e: Emitted, id: nat,
               s1: Names, r: Memory, b: seq<byte>, v: Item)
    requires Closes(c, t, s, m, in1, kids, e, id) && Extends(Entered(s), s1)
    requires Linked(x, kids.st, s1, r) && r.at == in1.at + |kids.bytes|
    requires v == Finish(Item(b, r), |m.objs|, true)
    ensures v.Item? && v.bytes == b && v.m.at == m.at + |e.bytes| && Linked(x, e.st, s1, v.m)
  {
    hide EnvMatch;
    var slot := |m.objs|;
    assert s1.memo[slot] == Entered(s).memo[slot] == Opened;
    SlotAt(x.host, r.objs, s1.memo, slot);
    var objs := r.objs[slot := r.objs[slot].(span := Some(b))];
    forall k | 0 <= k < |s1.memo| ensures SlotIs(x.host, objs[k], s1.memo[k]) { SlotAt(x.host, r.objs, s1.memo, k); }
  }

  lemma ListClose(x: Source, c: Config, t: Tree, s: Names, depth: nat, m: Memory, in1: Memory,
                  kids: Emitted, e: Emitted, yk: Expansions, r: Item, v: Item, id: nat)
    requires t.List? && depth < MAX_DEPTH && Closes(c, t, s, m, in1, kids, e, id)
    requires yk == ExpandKids(x.host, x.compat, t, 0, Entered(s), depth + 1, false) && ListAs(x, c, in1, kids, yk, r)
    requires v == Finish(ListOf(|t.kids|, r), |m.objs|, true)
    ensures ReadAs(x, c, false, m, e, ExpandCore(x.host, x.compat, t, false, s, depth, false), v)
  {
    hide ExpandKids, Linked, CborEncode.ItemBytes, CborEncode.Encodable, Cat, CborHeads.HeadBytes, Closes, Finish, AllEncodable, KeyLead, Extends;
    ClosesSizes(c, t, s, m, in1, kids, e, id);
    if yk.AllMade? {
      var n := BranchNode(t, yk.nodes);
      BranchEncodable(t, yk.nodes);
      ListItem(n, c.canonical);
      Closed(x, c, t, s, m, in1, kids, e, id, yk.names, r.m, CborHeads.HeadBytes(4, |t.kids|) + r.bytes, v);
    } else {
      NothingFinished(|m.objs|);
    }
  }

  lemma NothingFinished(slot: nat)
    ensures Finish(Declined, slot, true) == Declined
  {
  }

  lemma ClosesSizes(c: Config, t: Tree, s: Names, m: Memory, in1: Memory, kids: Emitted, e: Emitted, id: nat)
    requires Closes(c, t, s, m, in1, kids, e, id)
    ensures kids.Emitted? && e.Emitted? && IsBranch(t) && |t.kids| < TWO_64
  {
  }

  lemma TableClose(x: Source, c: Config, t: Tree, s: Names, depth: nat, m: Memory, in1: Memory,
                   kids: Emitted, e: Emitted, yk: Expansions, r: Rows, v: Item, id: nat)
    requires t.Table? && depth < MAX_DEPTH && Closes(c, t, s, m, in1, kids, e, id)
    requires yk == ExpandKids(x.host, x.compat, t, 0, Entered(s), depth + 1, false) && RowsAs(x, c, in1, kids, yk, r)
    requires v == Finish(TableFrom(r, c.canonical), |m.objs|, true)
    ensures ReadAs(x, c, false, m, e, ExpandCore(x.host, x.compat, t, false, s, depth, false), v)
  {
    hide ExpandKids, Linked, CborEncode.ItemBytes, CborEncode.Encodable, TableItem, Closes, Finish, RowsOf, Clash, Twice, KeyLead, Extends;
    ClosesSizes(c, t, s, m, in1, kids, e, id);
    NothingFinished(|m.objs|);
    if yk.AllMade? {
      var n := BranchNode(t, yk.nodes);
      RowCounts(yk.nodes, c.canonical, r.keys, r.pairs);
      RowsEncodable(yk.nodes, c.canonical, r.keys, r.pairs);
      BranchEncodable(t, yk.nodes);
      TableItems(n, c.canonical, r.keys, r.pairs);
      if !Clash(n) {
        Closed(x, c, t, s, m, in1, kids, e, id, yk.names, r.m, TableItem(r.keys, r.pairs, c.canonical), v);
      }
    }
  }

  lemma RowsEncodable(kids: seq<Node>, canonical: bool, keys: seq<seq<byte>>, pairs: seq<seq<byte>>)
    requires RowsOf(kids, canonical, keys, pairs)
    ensures AllEncodable(kids)
  {
  }

  // ---- kids ---------------------------------------------------------------------------------------

  ghost predicate ReadyKids(x: Source, c: Config, i: nat, t: Tree, k: nat, st: State, s: Names, m: Memory) {
    && Ready(x, c, i, st, s, m) && IsBranch(t) && Shaped(t) && k <= |t.kids|
    && Runs(x.recs, i, KidRecords(t, k) + [CLOSING]) && CountsAt(x, st.openSeq, KidCounts(t, k))
    && Facing(c, m, EmitKids(x, i, st))
  }

  /** One kid was written and read; the rest stands behind it. */
  lemma {:induction false} KidRead(x: Source, c: Config, i: nat, t: Tree, k: nat, st: State, s: Names, depth: nat, m: Memory)
    requires ReadyKids(x, c, i, t, k, st, s, m) && k < |t.kids|
    ensures i < |x.recs|
    ensures var key := KeySlot(t, k);
      var e, y, v := Emit(x, i, st), Expand(x.host, x.compat, t.kids[k], key, s, depth, false), Value(c, m, key, true, depth, false);
      && ReadAs(x, c, key, m, e, y, v) && Here(x, e.next, e.st)
      && EmitKids(x, i, st) == Prefix(e.bytes, EmitKids(x, e.next, e.st))
      && (y.Made? ==> ReadyKids(x, c, e.next, t, k + 1, e.st, y.names, v.m))
    decreases t, 0, |t.kids| - k, 0
  {
    hide WriteElements, WriteValue, Value, Expand, Linked, Records, KidRecords, KidCounts, TreeCounts, At, Counted, EncodesAs, KeyLead, Shaped;
    KidsUnfold(x, i, t, k, st);
    KidsShape(t, k);
    var kid, key := t.kids[k], KeySlot(t, k);
    TreeSpans(x, i, kid, key, st);
    CountsSplit(x, st.openSeq, TreeCounts(kid), KidCounts(t, k + 1));
    var e := Emit(x, i, st);
    StandsSplit(c.s, m.at, e.bytes, EmitKids(x, e.next, e.st).bytes);
    TreeRead(x, c, i, kid, key, st, s, depth, m);
  }

  lemma {:induction false} ListRead(x: Source, c: Config, i: nat, t: Tree, k: nat, st: State, s: Names, depth: nat, m: Memory)
    requires ReadyKids(x, c, i, t, k, st, s, m) && t.List?
    ensures ListAs(x, c, m, EmitKids(x, i, st), ExpandKids(x.host, x.compat, t, k, s, depth, false),
                   Elements(c, m, |t.kids| - k, false, true, depth))
    decreases t, 0, |t.kids| - k, 1
  {
    hide WriteElements, WriteValue, Value, Expand, Linked, Records, KidRecords, KidCounts, TreeCounts, At, Counted, KeyLead, Shaped, EncodesAs, Cat;
    if k < |t.kids| {
      KidRead(x, c, i, t, k, st, s, depth, m);
      var e, y, v := Emit(x, i, st), Expand(x.host, x.compat, t.kids[k], KeySlot(t, k), s, depth, false),
        Value(c, m, KeySlot(t, k), true, depth, false);
      if y.Made? {
        ListRead(x, c, e.next, t, k + 1, e.st, y.names, depth, v.m);
        ListStep(x, c, t, k, s, depth, m, e, EmitKids(x, e.next, e.st), y, v);
      }
    } else {
      ListEnd(x, c, i, t, st, s, depth, m);
    }
  }

  lemma ListEnd(x: Source, c: Config, i: nat, t: Tree, st: State, s: Names, depth: nat, m: Memory)
    requires IsBranch(t) && ReadyKids(x, c, i, t, |t.kids|, st, s, m)
    ensures ListAs(x, c, m, EmitKids(x, i, st), ExpandKids(x.host, x.compat, t, |t.kids|, s, depth, false),
                   Elements(c, m, 0, false, true, depth))
  {
    hide WriteElements, Linked, KidRecords, KidCounts, At, Counted, Cat;
    KidsEnd(x, i, t, st);
    NoCat(c.canonical);
  }

  /** One more element on both sides. */
  lemma ListStep(x: Source, c: Config, t: Tree, k: nat, s: Names, depth: nat, m: Memory,
                 e: Emitted, e1: Emitted, y: Expansion, v: Item)
    requires t.List? && k < |t.kids| && m.at <= |c.s|
    requires y == Expand(x.host, x.compat, t.kids[k], false, s, depth, false) && y.Made?
    requires v == Value(c, m, false, true, depth, false) && ReadAs(x, c, false, m, e, y, v)
    requires ListAs(x, c, v.m, e1, ExpandKids(x.host, x.compat, t, k + 1, y.names, depth, false),
                    Elements(c, v.m, |t.kids| - k - 1, false, true, depth))
    ensures ListAs(x, c, m, Prefix(e.bytes, e1), ExpandKids(x.host, x.compat, t, k, s, depth, false),
                   Elements(c, m, |t.kids| - k, false, true, depth))
  {
    hide Value, Expand, Linked, EncodesAs, Cat, KeyLead;
    var rest := ExpandKids(x.host, x.compat, t, k + 1, y.names, depth, false);
    if rest.AllMade? { CatFront(y.node, rest.nodes, c.canonical, v.bytes); }
  }

  /** The elements read against the kids expanded. */
  predicate ListAs(x: Source, c: Config, m: Memory, e: Emitted, y: Expansions, r: Item) {
    e.Emitted? &&
    match y
    case NotMade => r.Declined?
    case AllMade(nodes, s) =>
      && r.Item? && r.m.at == m.at + |e.bytes| && AllEncodable(nodes) && r.bytes == Cat(nodes, c.canonical)
      && Linked(x, e.st, s, r.m)
  }

  lemma CatFront(n: Node, rest: seq<Node>, canonical: bool, b: seq<byte>)
    requires EncodesAs(n, canonical, false, b) && AllEncodable(rest)
    ensures AllEncodable([n] + rest) && Cat([n] + rest, canonical) == b + Cat(rest, canonical)
  {
    assert ([n] + rest)[1..] == rest;
  }

  lemma {:induction false} RowsRead(x: Source, c: Config, i: nat, t: Tree, k: nat, st: State, s: Names, depth: nat, m: Memory)
    requires ReadyKids(x, c, i, t, k, st, s, m) && t.Table? && k % 2 == 0
    ensures RowsAs(x, c, m, EmitKids(x, i, st), ExpandKids(x.host, x.compat, t, k, s, depth, false),
                   TableOf(c, m, (|t.kids| - k) / 2, false, true, depth))
    decreases t, 0, |t.kids| - k, 1
  {
    hide WriteElements, WriteValue, Value, Expand, Linked, Records, KidRecords, KidCounts, TreeCounts, At, Counted, KeyLead, EncodesAs, RowsOf;
    TableEven(t, k);
    if k < |t.kids| {
      KidRead(x, c, i, t, k, st, s, depth, m);
      var e, y, v := Emit(x, i, st), Expand(x.host, x.compat, t.kids[k], true, s, depth, false), Value(c, m, true, true, depth, false);
      if y.Made? {
        ValueRead(x, c, i, t, k, st, s, depth, m, e, y, v);
      }
    } else {
      RowsEnd(x, c, i, t, st, s, depth, m);
    }
  }

  /** The key was read: now its value, then the rest. */
  lemma {:induction false} ValueRead(x: Source, c: Config, i: nat, t: Tree, k: nat, st: State, s: Names, depth: nat,
                                     m: Memory, e: Emitted, y: Expansion, v: Item)
    requires Here(x, i, st) && t.Table? && k % 2 == 0 && k + 2 <= |t.kids| && i < |x.recs| && e == Emit(x, i, st) && m.at <= |c.s|
    requires y == Expand(x.host, x.compat, t.kids[k], true, s, depth, false) && y.Made?
    requires v == Value(c, m, true, true, depth, false) && ReadAs(x, c, true, m, e, y, v) && Here(x, e.next, e.st)
    requires EmitKids(x, i, st) == Prefix(e.bytes, EmitKids(x, e.next, e.st))
    requires ReadyKids(x, c, e.next, t, k + 1, e.st, y.names, v.m)
    ensures RowsAs(x, c, m, EmitKids(x, i, st), ExpandKids(x.host, x.compat, t, k, s, depth, false),
                   TableOf(c, m, (|t.kids| - k) / 2, false, true, depth))
    decreases t, 0, |t.kids| - k, 0
  {
    hide WriteElements, WriteValue, Value, Expand, Linked, Records, KidRecords, KidCounts, TreeCounts, At, Counted, KeyLead, EncodesAs, RowsOf, Shaped,
      ReadAs, RowsAs, TableOf, ExpandKids;
    ItemWasRead(x, c, true, m, e, y, v);
    KidRead(x, c, e.next, t, k + 1, e.st, y.names, depth, v.m);
    var e1, y1, v1 := Emit(x, e.next, e.st), Expand(x.host, x.compat, t.kids[k + 1], false, y.names, depth, false),
      Value(c, v.m, false, true, depth, false);
    if y1.Made? {
      ItemWasRead(x, c, false, v.m, e1, y1, v1);
      RowsRead(x, c, e1.next, t, k + 2, e1.st, y1.names, depth, v1.m);
      RowsStep(x, c, t, k, s, depth, m, e, e1, EmitKids(x, e1.next, e1.st), y, y1, v, v1);
    } else {
      RowsFail(x, c, t, k, s, depth, m, e, EmitKids(x, i, st), y, y1, v, v1, e1);
    }
  }

  lemma ItemWasRead(x: Source, c: Config, key: bool, m: Memory, e: Emitted, y: Expansion, v: Item)
    requires ReadAs(x, c, key, m, e, y, v) && y.Made?
    ensures v.Item? && e.Emitted?
  {
    hide EncodesAs, Linked;
  }

  lemma ValueDeclined(x: Source, c: Config, key: bool, m: Memory, e: Emitted, y: Expansion, v: Item)
    requires ReadAs(x, c, key, m, e, y, v) && y.Unmade? && !key
    ensures v.Declined?
  {
    hide EncodesAs, Linked;
  }

  /** The value was declined, and so are the rows. */
  lemma RowsFail(x: Source, c: Config, t: Tree, k: nat, s: Names, depth: nat, m: Memory,
                 e: Emitted, all: Emitted, y: Expansion, y1: Expansion, v: Item, v1: Item, e1: Emitted)
    requires t.Table? && k + 2 <= |t.kids| && k % 2 == 0 && m.at <= |c.s| && all.Emitted?
    requires y == Expand(x.host, x.compat, t.kids[k], true, s, depth, false) && y.Made?
    requires y1 == Expand(x.host, x.compat, t.kids[k + 1], false, y.names, depth, false) && !y1.Made?
    requires v == Value(c, m, true, true, depth, false) && v.Item?
    requires v1 == Value(c, v.m, false, true, depth, false)
    requires ReadAs(x, c, false, v.m, e1, y1, v1)
    ensures RowsAs(x, c, m, all, ExpandKids(x.host, x.compat, t, k, s, depth, false), TableOf(c, m, (|t.kids| - k) / 2, false, true, depth))
  {
    hide Value, Expand, Linked, EncodesAs, RowsOf, KeyLead;
    hide ReadAs;
    ValueDeclined(x, c, false, v.m, e1, y1, v1);
    assert ExpandKids(x.host, x.compat, t, k + 1, y.names, depth, false) == NotMade;
  }

  lemma RowFront(k: Node, v: Node, rest: seq<Node>, canonical: bool, kb: seq<byte>, vb: seq<byte>, keys: seq<seq<byte>>, pairs: seq<seq<byte>>)
    requires EncodesAs(k, canonical, true, kb) && EncodesAs(v, canonical, false, vb) && RowsOf(rest, canonical, keys, pairs)
    ensures RowsOf([k] + ([v] + rest), canonical, [kb] + keys, [kb + vb] + pairs)
  {
    hide EncodesAs, RowOf, RowsOf, CborEncode.Encodable, CborEncode.ItemBytes;
    PairEncodable(k, v, canonical, kb, vb);
    RowCounts(rest, canonical, keys, pairs);
    var kids, ks, ps := [k] + ([v] + rest), [kb] + keys, [kb + vb] + pairs;
    assert kids == [k, v] + rest;
    forall p | 0 <= p < |ks| ensures RowOf(kids[2 * p], kids[2 * p + 1], canonical, ks[p], ps[p]) {
      if p > 0 { RowNth(rest, canonical, keys, pairs, p - 1); }
    }
    RowsBuilt(kids, canonical, ks, ps);
  }

  lemma RowNth(kids: seq<Node>, canonical: bool, keys: seq<seq<byte>>, pairs: seq<seq<byte>>, p: nat)
    requires RowsOf(kids, canonical, keys, pairs) && p < |keys|
    ensures |kids| == 2 * |keys| && |pairs| == |keys| && RowOf(kids[2 * p], kids[2 * p + 1], canonical, keys[p], pairs[p])
  {
    hide RowOf;
  }

  lemma RowsBuilt(kids: seq<Node>, canonical: bool, keys: seq<seq<byte>>, pairs: seq<seq<byte>>)
    requires |kids| == 2 * |keys| && |pairs| == |keys|
    requires forall p :: 0 <= p < |keys| ==> RowOf(kids[2 * p], kids[2 * p + 1], canonical, keys[p], pairs[p])
    ensures RowsOf(kids, canonical, keys, pairs)
  {
    hide CborEncode.Encodable, CborEncode.ItemBytes, CborEncode.KeyOk, CborEncode.KeyBytes;
    forall j | 0 <= j < |kids| ensures CborEncode.Encodable(kids[j]) {
      var p := j / 2;
      assert RowOf(kids[2 * p], kids[2 * p + 1], canonical, keys[p], pairs[p]);
      assert j == 2 * p || j == 2 * p + 1;
    }
  }

  lemma PairEncodable(k: Node, v: Node, canonical: bool, kb: seq<byte>, vb: seq<byte>)
    requires EncodesAs(k, canonical, true, kb) && EncodesAs(v, canonical, false, vb)
    ensures RowOf(k, v, canonical, kb, kb + vb)
  {
  }

  lemma RowsEnd(x: Source, c: Config, i: nat, t: Tree, st: State, s: Names, depth: nat, m: Memory)
    requires IsBranch(t) && ReadyKids(x, c, i, t, |t.kids|, st, s, m)
    ensures RowsAs(x, c, m, EmitKids(x, i, st), ExpandKids(x.host, x.compat, t, |t.kids|, s, depth, false),
                   TableOf(c, m, 0, false, true, depth))
  {
    hide WriteElements, Linked, KidRecords, KidCounts, At, Counted;
    KidsEnd(x, i, t, st);
  }

  /** One more pair on both sides. */
  lemma RowsStep(x: Source, c: Config, t: Tree, k: nat, s: Names, depth: nat, m: Memory,
                 e: Emitted, e1: Emitted, e2: Emitted, y: Expansion, y1: Expansion, v: Item, v1: Item)
    requires t.Table? && k + 2 <= |t.kids| && k % 2 == 0 && m.at <= |c.s|
    requires y == Expand(x.host, x.compat, t.kids[k], true, s, depth, false) && y.Made?
    requires y1 == Expand(x.host, x.compat, t.kids[k + 1], false, y.names, depth, false) && y1.Made?
    requires v == Value(c, m, true, true, depth, false) && v.Item?
    requires v1 == Value(c, v.m, false, true, depth, false)
    requires ReadAs(x, c, true, m, e, y, v) && ReadAs(x, c, false, v.m, e1, y1, v1)
    requires RowsAs(x, c, v1.m, e2, ExpandKids(x.host, x.compat, t, k + 2, y1.names, depth, false),
                    TableOf(c, v1.m, (|t.kids| - k) / 2 - 1, false, true, depth))
    ensures RowsAs(x, c, m, Prefix(e.bytes, Prefix(e1.bytes, e2)), ExpandKids(x.host, x.compat, t, k, s, depth, false),
                   TableOf(c, m, (|t.kids| - k) / 2, false, true, depth))
  {
    hide Value, Expand, Linked, EncodesAs, RowsOf, KeyLead;
    var rest := ExpandKids(x.host, x.compat, t, k + 2, y1.names, depth, false);
    var r := TableOf(c, v1.m, (|t.kids| - k) / 2 - 1, false, true, depth);
    assert ExpandKids(x.host, x.compat, t, k + 1, y.names, depth, false) == Beside(y1.node, rest);
    if rest.AllMade? { RowFront(y.node, y1.node, rest.nodes, c.canonical, v.bytes, v1.bytes, r.keys, r.pairs); }
  }

  lemma TableEven(t: Tree, k: nat)
    requires t.Table? && Shaped(t) && k <= |t.kids| && k % 2 == 0
    ensures k < |t.kids| ==> k + 2 <= |t.kids|
  {
  }

  /** The rows read against the kids expanded. */
  predicate RowsAs(x: Source, c: Config, m: Memory, e: Emitted, y: Expansions, r: Rows) {
    e.Emitted? &&
    match y
    case NotMade => r.NoRows?
    case AllMade(nodes, s) =>
      && r.Rows? && r.m.at == m.at + |e.bytes| && RowsOf(nodes, c.canonical, r.keys, r.pairs)
      && Linked(x, e.st, s, r.m)
  }

  // ---- the whole way -----------------------------------------------------------------------------

  /** Marshal a tree's records, then transcode the stream. */
  function Transcode(recs: seq<Record>, compat: bool, canonical: bool, host: Host): Option<seq<byte>>
    requires AllStorable(recs) && recs != []
  {
    match Marshal(recs, compat)
    case Unsupported => None
    case Stream(bytes) => FromMarshal(bytes, canonical, host)
  }

  /** The item of the expanded tree, if there is one. */
  predicate Gives(r: Option<seq<byte>>, y: Expansion, canonical: bool) {
    match y
    case Made(n, _) => CborEncode.Encodable(n) && r == Some(CborEncode.ItemBytes(n, canonical))
    case Unmade => r.None?
  }

  /** A tree whose records the writer can take. */
  ghost predicate Writable(t: Tree) {
    Shaped(t) && AllStorable(Records(t, false)) && !AnyRejected(Records(t, false))
  }

  /**
   * Transcoding the Marshal stream of a tree gives the CBOR item of the tree with each link replaced by what the
   * reader keeps in the slot of the writer's number, and nothing when there is no such tree.
   */
  lemma Transcodes(t: Tree, compat: bool, canonical: bool, host: Host)
    requires Writable(t)
    ensures Gives(Transcode(Records(t, false), compat, canonical, host), Expand(host, compat, t, false, NAMELESS, 0, false), canonical)
  {
    hide Expand, WriteValue, Value, Counted, AllStorable, AnyRejected, Linked, TreeCounts, CborEncode.ItemBytes, CborEncode.Encodable, Counts, KeyLead,
      Records, Matches, Shaped;
    var recs := Records(t, false);
    var x := Source(recs, Counts(recs), compat, host);
    CountsFit(recs);
    CountsOfTree(t);
    StartHere(x);
    assert recs[0..0 + |recs|] == recs;
    TreeNames(x, 0, t, false, START, NAMELESS, 0, false);
    var e := Emit(x, 0, START);
    if e.Emitted? {
      var s := [0x04, 0x08] + e.bytes;
      var c, m := Config(s, canonical, host), Memory(2, [], []);
      assert s[2..2 + |e.bytes|] == e.bytes;
      StartLinked(x, m);
      assert x.counts[0..0 + |x.counts|] == x.counts;
      TreeRead(x, c, 0, t, false, START, NAMELESS, 0, m);
      assert s[..2] == [0x04, 0x08];
    }
  }

  lemma StartHere(x: Source)
    requires Counted(x.recs, x.counts)
    ensures Here(x, 0, START) && Matches(START, NAMELESS)
  {
  }

  lemma StartLinked(x: Source, m: Memory)
    requires m.objs == []
    ensures Linked(x, START, NAMELESS, m)
  {
  }

  /** A stream with a record for the host walk never leaves the writer. */
  lemma RejectedStays(t: Tree, compat: bool, canonical: bool, host: Host)
    requires AllStorable(Records(t, false)) && AnyRejected(Records(t, false))
    ensures Transcode(Records(t, false), compat, canonical, host).None?
  {
    hide AnyRejected;
  }
}
