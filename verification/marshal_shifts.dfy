/** Families of trees with a link behind a bignum: one that comes out wrong, and two that come out right. */
module MarshalShifts {
  import opened Wrappers
  import opened Bytes
  import opened MarshalNumber
  import opened MarshalWrite
  import opened MarshalTree
  import opened MarshalRead
  import opened MarshalTranscode
  import opened MarshalExpand
  import opened MarshalCbor
  import opened MarshalMeaning
  import opened MarshalLinks
  import CborHeads
  import CborEncode
  import CborRead
  import CborCanonical
  import Utf8

  const A: seq<byte> := [0x61]
  const B: seq<byte> := [0x62]

  function BigRecord(v: int64): ScalarRecord { Record(Int, [], false, false, false, v, []) }
  function QuotedRecord(p: Span): ScalarRecord { Record(Str, p, false, false, false, 0, []) }
  function NullRecord(): ScalarRecord { Record(Null, [], false, false, false, 0, []) }

  function Big(v: int64): Tree { Scalar([], BigRecord(v)) }
  function Quoted(anchor: seq<byte>, p: Span): Tree { Scalar(anchor, QuotedRecord(p)) }

  /** An integer past what a small Marshal number holds. */
  predicate IsBig(v: int64) { Magnitude(v) >= 0x4000_0000 }

  function BigSlot(v: int64): Held
    requires IsBig(v)
  {
    Int64Limbs(Magnitude(v));
    Spelt(Whole(v < 0, Magnitude(v), true))
  }

  // ---- expansion, kid by kid --------------------------------------------------------------------

  lemma BigKid(host: Host, compat: bool, v: int64, s: Names, depth: nat, meant: bool)
    requires IsBig(v) && depth < MAX_DEPTH
    ensures Expand(host, compat, Big(v), false, s, depth, meant)
         == Made(WholeOf(v), s.(memo := s.memo + [BigSlot(v)]))
    ensures Passed(compat, Big(v), false, s) == s.(memo := s.memo + [BigSlot(v)])
  {
    hide LimbCount;
  }

  lemma QuotedKid(host: Host, compat: bool, anchor: seq<byte>, p: Span, s: Names, depth: nat, meant: bool)
    requires Utf8.Valid(p) && depth < MAX_DEPTH
    ensures Expand(host, compat, Quoted(anchor, p), false, s, depth, meant) == Made(TextOf(p), QuotedNames(anchor, p, s))
    ensures Passed(compat, Quoted(anchor, p), false, s) == QuotedNames(anchor, p, s)
  {
    hide Utf8.Valid, LimbCount, PsychInt, LongBytes;
  }

  /** What a link to the bignum's slot, or to a text's, brings. */
  lemma HeldNodes(host: Host, v: int64, p: Span, s: Names)
    requires IsBig(v) && Utf8.Valid(p)
    ensures Brought(host, false, BigSlot(v), s) == Made(WholeOf(v), s)
    ensures Brought(host, false, Spelt(Text(p)), s) == Made(TextOf(p), s)
  {
    hide LimbCount, Utf8.Valid;
  }

  function WholeOf(v: int64): (n: Node)
    ensures n.Scalar?
  {
    CborEncode.Scalar([], CborRead.TAG_INT, SignedDecimal(v < 0, Magnitude(v)))
  }

  function TextOf(p: Span): (n: Node)
    ensures n.Scalar?
  {
    CborEncode.Scalar([], CborRead.TAG_STR, p)
  }

  function QuotedNames(anchor: seq<byte>, p: Span, s: Names): Names {
    Names(s.env + (if anchor == [] then [] else [Meaning(anchor, Numbered(s.nreg, Spelt(Text(p))))]), s.memo + [Spelt(Text(p))], s.nreg + 1)
  }

  lemma LinkKid(host: Host, compat: bool, name: seq<byte>, key: bool, s: Names, depth: nat, meant: bool)
    requires depth < MAX_DEPTH && Lookup(s.env, name).Numbered?
    ensures var w := Lookup(s.env, name);
      Expand(host, compat, Link(name), key, s, depth, meant) == Brought(host, key, Brings(s, w.id, w.held, meant), s)
    ensures Passed(compat, Link(name), key, s) == s
  {
    hide NodeOf, Lookup;
  }

  lemma KidStep(host: Host, compat: bool, t: Tree, k: nat, s: Names, depth: nat, meant: bool)
    requires IsBranch(t) && k < |t.kids|
    ensures ExpandKids(host, compat, t, k, s, depth, meant)
         == var y := Expand(host, compat, t.kids[k], KeySlot(t, k), s, depth, meant);
            if y.Made? then Beside(y.node, ExpandKids(host, compat, t, k + 1, y.names, depth, meant)) else NotMade
    ensures KidsAgree(host, compat, t, k, s, false) <==>
      && LinksAgree(host, compat, t.kids[k], KeySlot(t, k), s, false)
      && KidsAgree(host, compat, t, k + 1, Passed(compat, t.kids[k], KeySlot(t, k), s), false)
  {
    hide Expand, LinksAgree, Passed;
  }

  lemma KidsDone(host: Host, compat: bool, t: Tree, s: Names, depth: nat, meant: bool)
    requires IsBranch(t)
    ensures ExpandKids(host, compat, t, |t.kids|, s, depth, meant) == AllMade([], s)
    ensures KidsAgree(host, compat, t, |t.kids|, s, false)
  {
  }

  // ---- the trees can be written ------------------------------------------------------------------

  /** A value of at most ten records, all of them the writer's. */
  ghost predicate Brief(t: Tree, key: bool) {
    Shaped(t) && |Records(t, key)| <= 10 && forall i :: 0 <= i < |Records(t, key)| ==> Fine(Records(t, key)[i])
  }

  predicate Fine(r: Record) { Storable(r) && !Rejected(r) }

  /** The values here: numbers, texts under the two anchors, links to them, and the mapping of links. */
  predicate Familiar(t: Tree) {
    match t
    case Link(name) => name == A || name == B
    case Scalar(anchor, rec) =>
      (anchor == [] || anchor == A || anchor == B) && (rec == QuotedRecord(rec.text) || rec == BigRecord(rec.p) || rec == NullRecord())
    case _ => t == Pairs()
  }

  lemma LeafBrief(t: Tree, key: bool)
    requires Familiar(t) && !IsBranch(t) && (key ==> t.Link?)
    ensures Brief(t, key) && |Records(t, key)| <= 2
  {
    hide CborEncode.Storable;
  }

  lemma {:induction false} KidsBrief(t: Tree, k: nat, m: nat)
    requires IsBranch(t) && k <= |t.kids| && m * |t.kids| <= 0x1000
    requires forall j :: 0 <= j < |t.kids| ==> Brief(t.kids[j], KeySlot(t, j)) && |Records(t.kids[j], KeySlot(t, j))| <= m
    ensures |KidRecords(t, k)| <= m * (|t.kids| - k)
    ensures forall i :: 0 <= i < |KidRecords(t, k)| ==> Fine(KidRecords(t, k)[i])
    decreases |t.kids| - k
  {
    hide Records, Shaped, Fine;
    if k < |t.kids| {
      KidsBrief(t, k + 1, m);
      assert m * (|t.kids| - k) == m + m * (|t.kids| - (k + 1));
    }
  }

  lemma BranchRecords(t: Tree, key: bool)
    requires IsBranch(t) && t.anchor == []
    ensures Records(t, key) == [Opening(t, key)] + KidRecords(t, 0) + [CLOSING]
  {
    hide KidRecords, Opening;
  }

  lemma EndsFine(t: Tree, key: bool)
    requires IsBranch(t)
    ensures Fine(Opening(t, key)) && Fine(CLOSING)
  {}

  lemma BranchFine(t: Tree, key: bool)
    requires IsBranch(t) && t.anchor == [] && forall i :: 0 <= i < |KidRecords(t, 0)| ==> Fine(KidRecords(t, 0)[i])
    ensures |Records(t, key)| == |KidRecords(t, 0)| + 2 && forall i :: 0 <= i < |Records(t, key)| ==> Fine(Records(t, key)[i])
  {
    hide KidRecords, Records, Fine, Opening;
    BranchRecords(t, key);
    EndsFine(t, key);
    Enclosed(Opening(t, key), KidRecords(t, 0), CLOSING);
  }

  lemma Enclosed(a: Record, s: seq<Record>, b: Record)
    requires Fine(a) && Fine(b) && forall i :: 0 <= i < |s| ==> Fine(s[i])
    ensures var all := [a] + s + [b]; |all| == |s| + 2 && forall i :: 0 <= i < |all| ==> Fine(all[i])
  {
    hide Fine;
  }

  lemma PairsBrief()
    ensures Brief(Pairs(), false)
  {
    hide Brief, Fine, Records;
    var t := Pairs();
    forall j | 0 <= j < 4 ensures Brief(t.kids[j], KeySlot(t, j)) && |Records(t.kids[j], KeySlot(t, j))| <= 2 {
      LeafBrief(t.kids[j], KeySlot(t, j));
    }
    KidsBrief(t, 0, 2);
    BranchFine(t, false);
    BriefBranch(t);
  }

  lemma BriefBranch(t: Tree)
    requires t == Pairs() && |Records(t, false)| <= 10 && forall i :: 0 <= i < |Records(t, false)| ==> Fine(Records(t, false)[i])
    ensures Brief(t, false)
  {
    hide Records, Fine;
  }

  lemma ListWritable(t: Tree)
    requires t.List? && t.anchor == [] && |t.kids| <= 5 && forall j :: 0 <= j < |t.kids| ==> Familiar(t.kids[j])
    ensures Writable(t)
  {
    hide Records, Familiar, Pairs, Fine, Brief, Shaped;
    forall j | 0 <= j < |t.kids| ensures Brief(t.kids[j], KeySlot(t, j)) && |Records(t.kids[j], KeySlot(t, j))| <= 10 && Shaped(t.kids[j]) {
      FamiliarBrief(t.kids[j]);
    }
    KidsBrief(t, 0, 10);
    BranchFine(t, false);
    FineWritable(t);
  }

  lemma FamiliarBrief(t: Tree)
    requires Familiar(t)
    ensures Brief(t, false) && |Records(t, false)| <= 10 && Shaped(t)
  {
    hide Records, Fine, Pairs;
    if IsBranch(t) { PairsBrief(); } else { LeafBrief(t, false); }
  }

  lemma FineWritable(t: Tree)
    requires t.List? && forall j :: 0 <= j < |t.kids| ==> Shaped(t.kids[j])
    requires |Records(t, false)| <= 52 && forall i :: 0 <= i < |Records(t, false)| ==> Fine(Records(t, false)[i])
    ensures Writable(t)
  {
    hide Records;
  }

  // ---- [v, &a p, *a] ------------------------------------------------------------------------

  function ShiftedTree(v: int64, p: Span): Tree { List([], [Big(v), Quoted(A, p), Link(A)]) }

  lemma ShiftedExpands(host: Host, compat: bool, v: int64, p: Span, meant: bool)
    requires IsBig(v) && Utf8.Valid(p)
    ensures var whole, text := WholeOf(v), TextOf(p);
      Expand(host, compat, ShiftedTree(v, p), false, NAMELESS, 0, meant).Made?
      && Expand(host, compat, ShiftedTree(v, p), false, NAMELESS, 0, meant).node
         == CborEncode.Sequence([], [whole, text, if meant then text else whole])
  {
    hide ExpandKids, Expand, WholeOf, TextOf, QuotedNames, Utf8.Valid, SpellingOf, KidsAgree, LinksAgree, Passed, NodeOf, Brought, BigSlot, Lookup;
    var t := ShiftedTree(v, p);
    var s0 := Names([], [Opened], 1);
    var s1 := s0.(memo := [Opened, BigSlot(v)]);
    var s2 := Names([Meaning(A, Numbered(1, Spelt(Text(p))))], [Opened, BigSlot(v), Spelt(Text(p))], 2);
    BigKid(host, compat, v, s0, 1, meant);
    assert s0.memo + [BigSlot(v)] == s1.memo;
    QuotedKid(host, compat, A, p, s1, 1, meant);
    ShiftedNames(v, p, s1, s2);
    LinkKid(host, compat, A, false, s2, 1, meant);
    HeldNodes(host, v, p, s2);
    KidStep(host, compat, t, 0, s0, 1, meant);
    KidStep(host, compat, t, 1, s1, 1, meant);
    KidStep(host, compat, t, 2, s2, 1, meant);
    KidsDone(host, compat, t, s2, 1, meant);
    OpenList(host, compat, t, meant);
    var last := if meant then TextOf(p) else WholeOf(v);
    assert t.kids[2] == Link(A) && !KeySlot(t, 2);
    assert ExpandKids(host, compat, t, 2, s2, 1, meant) == AllMade([last], s2);
    assert ExpandKids(host, compat, t, 1, s1, 1, meant) == AllMade([TextOf(p), last], s2);
  }

  lemma ShiftedNames(v: int64, p: Span, s1: Names, s2: Names)
    requires IsBig(v) && s1 == Names([], [Opened, BigSlot(v)], 1)
    requires s2 == Names([Meaning(A, Numbered(1, Spelt(Text(p))))], [Opened, BigSlot(v), Spelt(Text(p))], 2)
    ensures QuotedNames(A, p, s1) == s2 && Lookup(s2.env, A) == Numbered(1, Spelt(Text(p)))
  {
    assert [Opened, BigSlot(v)] + [Spelt(Text(p))] == s2.memo;
  }

  /** A list at the root is what its elements make. */
  lemma OpenList(host: Host, compat: bool, t: Tree, meant: bool)
    requires t.List? && t.anchor == []
    ensures var y := ExpandKids(host, compat, t, 0, Names([], [Opened], 1), 1, meant);
      Expand(host, compat, t, false, NAMELESS, 0, meant)
      == if y.AllMade? then Made(CborEncode.Sequence([], y.nodes), y.names) else Unmade
    ensures LinksAgree(host, compat, t, false, NAMELESS, false) <==> KidsAgree(host, compat, t, 0, Names([], [Opened], 1), false)
  {
    hide ExpandKids, KidsAgree;
    assert [] + [Opened] == [Opened];
  }

  lemma TreesWritable(v: int64, p: Span, q: Span)
    ensures Writable(ShiftedTree(v, p)) && Writable(RepeatedTree(v, p)) && Writable(SwappedTree(v, p, q))
  {
    hide Writable;
    ListWritable(ShiftedTree(v, p));
    ListWritable(RepeatedTree(v, p));
    ListWritable(SwappedTree(v, p, q));
  }

  /**
   * A link behind a bignum goes wrong: [v, &a p, *a] comes out as [v, p, v], for every integer v of 2^30 or more
   * and every text p.
   */
  lemma BignumShiftsLinks(v: int64, p: Span, compat: bool, canonical: bool, host: Host)
    requires IsBig(v) && Utf8.Valid(p)
    ensures Writable(ShiftedTree(v, p))
    ensures var whole, text := WholeOf(v), TextOf(p);
      && Meant(host, compat, ShiftedTree(v, p)).Made?
      && Meant(host, compat, ShiftedTree(v, p)).node == CborEncode.Sequence([], [whole, text, text])
      && CborEncode.Encodable(CborEncode.Sequence([], [whole, text, whole]))
      && Transcode(Records(ShiftedTree(v, p), false), compat, canonical, host)
         == Some(CborEncode.ItemBytes(CborEncode.Sequence([], [whole, text, whole]), canonical))
  {
    hide Expand, Writable, Transcode, WholeOf, TextOf, ShiftedTree, CborEncode.Encodable, CborEncode.ItemBytes, Records, Utf8.Valid;
    ShiftedExpands(host, compat, v, p, true);
    ShiftedExpands(host, compat, v, p, false);
    TreesWritable(v, p, p);
    Transcodes(ShiftedTree(v, p), compat, canonical, host);
  }

  // ---- [v, p, &a p, *a] ------------------------------------------------------------------------

  function RepeatedTree(v: int64, p: Span): Tree { List([], [Big(v), Quoted([], p), Quoted(A, p), Link(A)]) }

  lemma RepeatedNames(v: int64, p: Span, s1: Names, s2: Names, s3: Names)
    requires IsBig(v) && s1 == Names([], [Opened, BigSlot(v)], 1) && s2 == Names([], [Opened, BigSlot(v), Spelt(Text(p))], 2)
    requires s3 == Names([Meaning(A, Numbered(2, Spelt(Text(p))))], [Opened, BigSlot(v), Spelt(Text(p)), Spelt(Text(p))], 3)
    ensures QuotedNames([], p, s1) == s2 && QuotedNames(A, p, s2) == s3 && Lookup(s3.env, A) == Numbered(2, Spelt(Text(p)))
  {
    assert [Opened, BigSlot(v)] + [Spelt(Text(p))] == s2.memo;
    assert s2.memo + [Spelt(Text(p))] == s3.memo;
  }

  /** The link picks the slot before its own, which holds the same text: the item is the one meant. */
  lemma RepeatedIsRight(v: int64, p: Span, compat: bool, canonical: bool, host: Host)
    requires IsBig(v) && Utf8.Valid(p)
    ensures Writable(RepeatedTree(v, p))
    ensures Gives(Transcode(Records(RepeatedTree(v, p), false), compat, canonical, host), Meant(host, compat, RepeatedTree(v, p)), canonical)
  {
    hide Writable, Transcode, Gives, LinksAgree, Utf8.Valid, Records, Meant, RepeatedTree;
    RepeatedAgrees(v, p, compat, host);
    TreesWritable(v, p, p);
    MeansExactly(RepeatedTree(v, p), compat, canonical, host);
  }

  lemma RepeatedAgrees(v: int64, p: Span, compat: bool, host: Host)
    requires IsBig(v) && Utf8.Valid(p)
    ensures AllAgree(host, compat, RepeatedTree(v, p), false)
  {
    hide Expand, ExpandKids, KidsAgree, Passed, LinksAgree, Utf8.Valid, BigSlot, QuotedNames, Lookup, HeldItem;
    var t := RepeatedTree(v, p);
    var s0 := Names([], [Opened], 1);
    var s1 := s0.(memo := [Opened, BigSlot(v)]);
    var s2 := Names([], [Opened, BigSlot(v), Spelt(Text(p))], 2);
    var s3 := Names([Meaning(A, Numbered(2, Spelt(Text(p))))], [Opened, BigSlot(v), Spelt(Text(p)), Spelt(Text(p))], 3);
    BigKid(host, compat, v, s0, 1, true);
    assert s0.memo + [BigSlot(v)] == s1.memo;
    QuotedKid(host, compat, [], p, s1, 1, true);
    QuotedKid(host, compat, A, p, s2, 1, true);
    RepeatedNames(v, p, s1, s2, s3);
    LinkKid(host, compat, A, false, s3, 1, true);
    NothingLinked(host, compat, Big(v), s0);
    NothingLinked(host, compat, Quoted([], p), s1);
    NothingLinked(host, compat, Quoted(A, p), s2);
    OneLinked(host, compat, A, false, s3);
    KidStep(host, compat, t, 0, s0, 1, true);
    KidStep(host, compat, t, 1, s1, 1, true);
    KidStep(host, compat, t, 2, s2, 1, true);
    KidStep(host, compat, t, 3, s3, 1, true);
    KidsDone(host, compat, t, s3, 1, true);
    OpenList(host, compat, t, true);
  }

  lemma NothingLinked(host: Host, compat: bool, t: Tree, s: Names)
    requires t.Scalar?
    ensures LinksAgree(host, compat, t, false, s, false)
  {
  }

  lemma OneLinked(host: Host, compat: bool, name: seq<byte>, key: bool, s: Names)
    ensures LinksAgree(host, compat, Link(name), key, s, false) <==> LinkAgrees(host, name, key, s)
  {
  }

  // ---- [v, q, &a p, &b q, {*a: ~, *b: ~}] --------------------------------------------------------

  function Pairs(): Tree { Table([], [Link(A), Scalar([], NullRecord()), Link(B), Scalar([], NullRecord())]) }

  function SwappedTree(v: int64, p: Span, q: Span): Tree {
    List([], [Big(v), Quoted([], q), Quoted(A, p), Quoted(B, q), Pairs()])
  }

  const NULL_NODE: Node := CborEncode.Scalar([], CborRead.TAG_NULL, Ascii("null"))

  function PairsOf(k: Span, l: Span): Node { CborEncode.Mapping([], [TextOf(k), NULL_NODE, TextOf(l), NULL_NODE]) }

  function SwappedNode(v: int64, p: Span, q: Span, k: Span, l: Span): Node {
    CborEncode.Sequence([], [WholeOf(v), TextOf(q), TextOf(p), TextOf(q), PairsOf(k, l)])
  }

  /** Two texts that are keys, and are written unlike. */
  ghost predicate KeyTexts(host: Host, p: Span, q: Span) {
    Utf8.Valid(p) && Utf8.Valid(q) && !host.typed(p) && !host.typed(q) && CborHeads.TextBytes(false, p) != CborHeads.TextBytes(false, q)
  }

  function SwappedNames(v: int64, p: Span, q: Span): Names
    requires IsBig(v)
  {
    Names([Meaning(A, Numbered(2, Spelt(Text(p)))), Meaning(B, Numbered(3, Spelt(Text(q))))],
          [Opened, BigSlot(v), Spelt(Text(q)), Spelt(Text(p)), Spelt(Text(q))], 4)
  }

  lemma NullKid(host: Host, compat: bool, s: Names, depth: nat, meant: bool)
    requires depth < MAX_DEPTH
    ensures Expand(host, compat, Scalar([], NullRecord()), false, s, depth, meant) == Made(NULL_NODE, s)
    ensures Passed(compat, Scalar([], NullRecord()), false, s) == s
  {
    assert s.memo + [] == s.memo;
  }

  lemma KeyNodes(host: Host, p: Span, s: Names)
    requires Utf8.Valid(p) && !host.typed(p)
    ensures Brought(host, true, Spelt(Text(p)), s) == Made(TextOf(p), s)
    ensures HeldItem(host, true, Spelt(Text(p))) == Some(CborHeads.TextBytes(false, p))
  {
    hide Utf8.Valid, CborHeads.SimpleOf, CborHeads.HeadBytes;
    var n := TextOf(p);
    SpellingNode(host, true, Text(p), false);
    hide SpellingItem;
    LeafBytes(n);
  }

  /** The two links and what they bring. */
  lemma PairLinks(host: Host, v: int64, p: Span, q: Span, meant: bool)
    requires IsBig(v)
    ensures var s := Entered(SwappedNames(v, p, q));
      && Lookup(s.env, A) == Numbered(2, Spelt(Text(p))) && Lookup(s.env, B) == Numbered(3, Spelt(Text(q)))
      && Brings(s, 2, Spelt(Text(p)), meant) == Spelt(Text(if meant then p else q))
      && Brings(s, 3, Spelt(Text(q)), meant) == Spelt(Text(if meant then q else p))
  {
    hide BigSlot;
    var s := Entered(SwappedNames(v, p, q));
    assert s.env[..1] == [Meaning(A, Numbered(2, Spelt(Text(p))))];
  }

  lemma PairsExpand(host: Host, compat: bool, v: int64, p: Span, q: Span, meant: bool)
    requires IsBig(v) && KeyTexts(host, p, q)
    ensures var s := SwappedNames(v, p, q);
      Expand(host, compat, Pairs(), false, s, 1, meant)
      == Made(PairsOf(if meant then p else q, if meant then q else p), Entered(s))
    ensures !LinksAgree(host, compat, Pairs(), false, SwappedNames(v, p, q), false)
  {
    hide ExpandKids, Expand, TextOf, Utf8.Valid, SpellingOf, KidsAgree, LinksAgree, Passed, NodeOf, Brought, SwappedNames, Lookup, HeldItem, Brings,
      CborHeads.TextBytes, Entered, Clash;
    var t, s := Pairs(), Entered(SwappedNames(v, p, q));
    var k, l := if meant then p else q, if meant then q else p;
    PairLinks(host, v, p, q, meant);
    PairLinks(host, v, p, q, false);
    KeyNodes(host, p, s);
    KeyNodes(host, q, s);
    LinkKid(host, compat, A, true, s, 2, meant);
    LinkKid(host, compat, B, true, s, 2, meant);
    NullKid(host, compat, s, 2, meant);
    OneLinked(host, compat, A, true, s);
    KidStep(host, compat, t, 0, s, 2, meant);
    KidStep(host, compat, t, 1, s, 2, meant);
    KidStep(host, compat, t, 2, s, 2, meant);
    KidStep(host, compat, t, 3, s, 2, meant);
    KidsDone(host, compat, t, s, 2, meant);
    assert ExpandKids(host, compat, t, 3, s, 2, meant) == AllMade([NULL_NODE], s);
    assert ExpandKids(host, compat, t, 2, s, 2, meant) == AllMade([TextOf(l), NULL_NODE], s);
    assert ExpandKids(host, compat, t, 1, s, 2, meant) == AllMade([NULL_NODE, TextOf(l), NULL_NODE], s);
    assert ExpandKids(host, compat, t, 0, s, 2, meant) == AllMade([TextOf(k), NULL_NODE, TextOf(l), NULL_NODE], s);
    PairsEncode(k, l);
    OpenTable(host, compat, t, SwappedNames(v, p, q), meant);
  }

  lemma OpenTable(host: Host, compat: bool, t: Tree, s: Names, meant: bool)
    requires t.Table? && t.anchor == []
    ensures var y := ExpandKids(host, compat, t, 0, Entered(s), 2, meant);
      Expand(host, compat, t, false, s, 1, meant)
      == if y.AllMade? && !Clash(CborEncode.Mapping([], y.nodes)) then Made(CborEncode.Mapping([], y.nodes), y.names) else Unmade
    ensures LinksAgree(host, compat, t, false, s, false) <==> KidsAgree(host, compat, t, 0, Entered(s), false)
  {
    hide ExpandKids, KidsAgree, Entered, Clash;
  }

  lemma TextEncodable(p: Span)
    requires Utf8.Valid(p)
    ensures CborEncode.Encodable(TextOf(p)) && CborEncode.KeyOk(TextOf(p)) && CborEncode.KeyBytes(TextOf(p)) == CborHeads.TextBytes(false, p)
  {
  }

  lemma NullEncodable()
    ensures CborEncode.Encodable(NULL_NODE)
  {
  }

  lemma PairsEncode(k: Span, l: Span)
    requires Utf8.Valid(k) && Utf8.Valid(l) && CborHeads.TextBytes(false, k) != CborHeads.TextBytes(false, l)
    ensures !Clash(PairsOf(k, l)) && CborEncode.Encodable(PairsOf(k, l)) && CborCanonical.DistinctKeys(PairsOf(k, l))
  {
    hide CborHeads.TextBytes, Utf8.Valid, TextOf, CborEncode.Encodable, CborEncode.KeyOk, CborEncode.KeyBytes;
    TextEncodable(k);
    TextEncodable(l);
    NullEncodable();
    var n := PairsOf(k, l);
    BranchEncodable(Table([], []), n.kids);
    PairKeys(k, l);
    PlainDistinct(TextOf(k));
    PlainDistinct(TextOf(l));
    PlainDistinct(NULL_NODE);
    hide CborCanonical.DistinctKeys;
    OwnDistinct(n);
  }

  lemma OwnDistinct(n: Node)
    requires n.Mapping? && CborEncode.Encodable(n) && CborCanonical.OwnKeysDistinct(n)
    requires forall k :: 0 <= k < |n.kids| ==> CborEncode.Encodable(n.kids[k]) && CborCanonical.DistinctKeys(n.kids[k])
    ensures CborCanonical.DistinctKeys(n)
  {
    hide CborEncode.Encodable, CborCanonical.OwnKeysDistinct;
  }

  lemma PlainDistinct(n: Node)
    requires n.Scalar? && CborEncode.Encodable(n)
    ensures CborCanonical.DistinctKeys(n)
  {
    hide CborEncode.Encodable;
  }

  lemma PairKeys(k: Span, l: Span)
    requires CborEncode.KeyOk(TextOf(k)) && CborEncode.KeyOk(TextOf(l))
    ensures var n := PairsOf(k, l); CborEncode.KeysOk(n) && CborEncode.Keys(n) == [CborEncode.KeyBytes(TextOf(k)), CborEncode.KeyBytes(TextOf(l))]
  {
    hide CborEncode.KeyOk, CborEncode.KeyBytes, TextOf;
    var n := PairsOf(k, l);
    assert n.kids[2 * 0] == TextOf(k) && n.kids[2 * 1] == TextOf(l);
  }

  /** The second text and the pairs behind it. */
  lemma SwappedTail(host: Host, compat: bool, v: int64, p: Span, q: Span, s3: Names, meant: bool)
    requires IsBig(v) && KeyTexts(host, p, q) && QuotedNames(B, q, s3) == SwappedNames(v, p, q)
    ensures var t := SwappedTree(v, p, q);
      && ExpandKids(host, compat, t, 3, s3, 1, meant)
         == AllMade([TextOf(q), PairsOf(if meant then p else q, if meant then q else p)], Entered(SwappedNames(v, p, q)))
      && !KidsAgree(host, compat, t, 3, s3, false)
  {
    hide ExpandKids, Expand, WholeOf, TextOf, QuotedNames, Utf8.Valid, SpellingOf, KidsAgree, LinksAgree, Passed, NodeOf, Brought, BigSlot, Lookup,
      PairsOf, Entered, Pairs, HeldItem, CborHeads.TextBytes, SwappedNames;
    var t := SwappedTree(v, p, q);
    var s4 := SwappedNames(v, p, q);
    QuotedKid(host, compat, B, q, s3, 1, meant);
    PairsExpand(host, compat, v, p, q, meant);
    var last := PairsOf(if meant then p else q, if meant then q else p);
    KidStep(host, compat, t, 4, s4, 1, meant);
    KidsDone(host, compat, t, Entered(s4), 1, meant);
    assert ExpandKids(host, compat, t, 4, s4, 1, meant) == AllMade([last], Entered(s4));
    KidStep(host, compat, t, 3, s3, 1, meant);
    assert ExpandKids(host, compat, t, 3, s3, 1, meant) == AllMade([TextOf(q), last], Entered(s4));
  }

  lemma SwappedExpands(host: Host, compat: bool, v: int64, p: Span, q: Span, meant: bool)
    requires IsBig(v) && KeyTexts(host, p, q)
    ensures var y := Expand(host, compat, SwappedTree(v, p, q), false, NAMELESS, 0, meant);
      y.Made? && y.node == SwappedNode(v, p, q, if meant then p else q, if meant then q else p)
    ensures !AllAgree(host, compat, SwappedTree(v, p, q), false)
  {
    hide ExpandKids, Expand, WholeOf, TextOf, QuotedNames, Utf8.Valid, SpellingOf, KidsAgree, LinksAgree, Passed, NodeOf, Brought, BigSlot, Lookup,
      PairsOf, Entered, Pairs, HeldItem, CborHeads.TextBytes, SwappedNames;
    var t := SwappedTree(v, p, q);
    var s0 := Names([], [Opened], 1);
    var s1 := s0.(memo := [Opened, BigSlot(v)]);
    var s2 := Names([], [Opened, BigSlot(v), Spelt(Text(q))], 2);
    var s3 := Names([Meaning(A, Numbered(2, Spelt(Text(p))))], [Opened, BigSlot(v), Spelt(Text(q)), Spelt(Text(p))], 3);
    var s5 := Entered(SwappedNames(v, p, q));
    SwappedSteps(v, p, q, s0, s1, s2, s3);
    BigKid(host, compat, v, s0, 1, meant);
    QuotedKid(host, compat, [], q, s1, 1, meant);
    QuotedKid(host, compat, A, p, s2, 1, meant);
    var last := PairsOf(if meant then p else q, if meant then q else p);
    SwappedTail(host, compat, v, p, q, s3, meant);
    KidStep(host, compat, t, 2, s2, 1, meant);
    assert ExpandKids(host, compat, t, 2, s2, 1, meant) == AllMade([TextOf(p), TextOf(q), last], s5);
    KidStep(host, compat, t, 1, s1, 1, meant);
    assert ExpandKids(host, compat, t, 1, s1, 1, meant) == AllMade([TextOf(q), TextOf(p), TextOf(q), last], s5);
    KidStep(host, compat, t, 0, s0, 1, meant);
    OpenList(host, compat, t, meant);
  }

  lemma SwappedSteps(v: int64, p: Span, q: Span, s0: Names, s1: Names, s2: Names, s3: Names)
    requires IsBig(v) && s0 == Names([], [Opened], 1) && s1 == s0.(memo := [Opened, BigSlot(v)])
    requires s2 == Names([], [Opened, BigSlot(v), Spelt(Text(q))], 2)
    requires s3 == Names([Meaning(A, Numbered(2, Spelt(Text(p))))], [Opened, BigSlot(v), Spelt(Text(q)), Spelt(Text(p))], 3)
    ensures s0.memo + [BigSlot(v)] == s1.memo
    ensures QuotedNames([], q, s1) == s2 && QuotedNames(A, p, s2) == s3 && QuotedNames(B, q, s3) == SwappedNames(v, p, q)
  {
    hide BigSlot;
    assert s1.memo + [Spelt(Text(q))] == s2.memo;
    assert s2.memo + [Spelt(Text(p))] == s3.memo;
    assert s3.memo + [Spelt(Text(q))] == SwappedNames(v, p, q).memo;
  }

  /**
   * In canonical order two wrong keys can change places: [v, q, &a p, &b q, {*a: ~, *b: ~}] comes out right though
   * neither link agrees.
   */
  lemma SwappedKeysMeet(v: int64, p: Span, q: Span, compat: bool, host: Host)
    requires IsBig(v) && KeyTexts(host, p, q)
    ensures Writable(SwappedTree(v, p, q))
    ensures !AllAgree(host, compat, SwappedTree(v, p, q), false)
    ensures Meant(host, compat, SwappedTree(v, p, q)).Made?
    ensures Gives(Transcode(Records(SwappedTree(v, p, q), false), compat, true, host), Meant(host, compat, SwappedTree(v, p, q)), true)
  {
    hide Expand, Writable, Transcode, WholeOf, TextOf, SwappedTree, CborEncode.Encodable, CborEncode.ItemBytes, Records, Utf8.Valid, SwappedNode,
      CborCanonical.DistinctKeys, CborCanonical.Reordered, AllAgree, CborHeads.TextBytes;
    SwappedExpands(host, compat, v, p, q, true);
    SwappedExpands(host, compat, v, p, q, false);
    TreesWritable(v, p, q);
    Transcodes(SwappedTree(v, p, q), compat, true, host);
    SwappedReordered(v, p, q);
    SwappedEncodes(v, p, q, p, q);
    SwappedEncodes(v, p, q, q, p);
    CborCanonical.OrderIndependent(SwappedNode(v, p, q, q, p), SwappedNode(v, p, q, p, q));
  }

  lemma PairsReordered(p: Span, q: Span)
    ensures CborCanonical.Reordered(PairsOf(q, p), PairsOf(p, q))
  {
    hide TextOf;
    var a, b, pi := PairsOf(q, p), PairsOf(p, q), [1, 0];
    assert CborCanonical.Permutation(pi, 2) by { assert pi[0] == 1 && pi[1] == 0; }
    Unmoved(TextOf(p));
    Unmoved(TextOf(q));
    Unmoved(NULL_NODE);
    TwoPairs(a, b, pi);
  }

  lemma TwoPairs(a: Node, b: Node, pi: seq<nat>)
    requires a.Mapping? && b.Mapping? && a.tag == b.tag && |a.kids| == |b.kids| == 4 && pi == [1, 0] && CborCanonical.Permutation(pi, 2)
    requires CborCanonical.Reordered(a.kids[0], b.kids[2]) && CborCanonical.Reordered(a.kids[1], b.kids[3])
    requires CborCanonical.Reordered(a.kids[2], b.kids[0]) && CborCanonical.Reordered(a.kids[3], b.kids[1])
    ensures CborCanonical.Reordered(a, b)
  {
    assert CborCanonical.PairsMatch(a, b, pi);
  }

  lemma SwappedReordered(v: int64, p: Span, q: Span)
    ensures CborCanonical.Reordered(SwappedNode(v, p, q, q, p), SwappedNode(v, p, q, p, q))
  {
    hide TextOf, WholeOf, PairsOf, CborCanonical.Reordered;
    PairsReordered(p, q);
    Unmoved(WholeOf(v));
    Unmoved(TextOf(p));
    Unmoved(TextOf(q));
    ListReordered(SwappedNode(v, p, q, q, p).kids, SwappedNode(v, p, q, p, q).kids);
  }

  lemma Unmoved(n: Node)
    requires n.Scalar?
    ensures CborCanonical.Reordered(n, n)
  {
  }

  lemma ListReordered(a: seq<Node>, b: seq<Node>)
    requires |a| == |b| && forall k :: 0 <= k < |a| ==> CborCanonical.Reordered(a[k], b[k])
    ensures CborCanonical.Reordered(CborEncode.Sequence([], a), CborEncode.Sequence([], b))
  {
  }

  lemma WholeEncodable(v: int64)
    ensures CborEncode.Encodable(WholeOf(v))
  {
    hide CborEncode.Encodable, CborEncode.ItemBytes, CborEncode.KeyOk, CborEncode.KeyBytes;
    WholeEncodes(Host(_ => false, _ => None, _ => 0), false, v);
  }

  lemma SwappedEncodes(v: int64, p: Span, q: Span, k: Span, l: Span)
    requires Utf8.Valid(p) && Utf8.Valid(q) && Utf8.Valid(k) && Utf8.Valid(l) && CborHeads.TextBytes(false, k) != CborHeads.TextBytes(false, l)
    ensures CborEncode.Encodable(SwappedNode(v, p, q, k, l)) && CborCanonical.DistinctKeys(SwappedNode(v, p, q, k, l))
  {
    hide CborHeads.TextBytes, Utf8.Valid, TextOf, WholeOf, CborEncode.Encodable, PairsOf;
    WholeEncodable(v);
    TextEncodable(p);
    TextEncodable(q);
    PairsEncode(k, l);
    var n := SwappedNode(v, p, q, k, l);
    BranchEncodable(List([], []), n.kids);
    ListDistinct(v, p, q, k, l);
  }

  lemma ListDistinct(v: int64, p: Span, q: Span, k: Span, l: Span)
    requires CborEncode.Encodable(WholeOf(v)) && CborEncode.Encodable(TextOf(p)) && CborEncode.Encodable(TextOf(q))
    requires CborEncode.Encodable(PairsOf(k, l)) && CborCanonical.DistinctKeys(PairsOf(k, l))
    requires CborEncode.Encodable(SwappedNode(v, p, q, k, l))
    ensures CborCanonical.DistinctKeys(SwappedNode(v, p, q, k, l))
  {
    hide CborEncode.Encodable, PairsOf, CborCanonical.DistinctKeys;
    var n := SwappedNode(v, p, q, k, l);
    PlainDistinct(WholeOf(v));
    PlainDistinct(TextOf(p));
    PlainDistinct(TextOf(q));
    KidsDistinct(n);
  }

  lemma KidsDistinct(n: Node)
    requires n.Sequence? && CborEncode.Encodable(n)
    requires forall k :: 0 <= k < |n.kids| ==> CborEncode.Encodable(n.kids[k]) && CborCanonical.DistinctKeys(n.kids[k])
    ensures CborCanonical.DistinctKeys(n)
  {
    hide CborEncode.Encodable;
  }
}
