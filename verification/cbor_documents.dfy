/** The document a data item decodes to, told from the item's form. */
module CborDocuments {
  import opened Wrappers
  import opened Bytes
  import opened CborRead
  import opened CborValues
  import opened CborWire
  import opened CborEncode
  import opened CborFaithful
  import CborDom
  import CborFacts

  // ---- the nodes of a form --------------------------------------------------------------

  /** The text of a simple value. */
  function SimpleWord(v: nat): seq<byte> {
    if v == 20 then [0x66, 0x61, 0x6C, 0x73, 0x65]
    else if v == 21 then [0x74, 0x72, 0x75, 0x65]
    else if v == 22 then [0x6E, 0x75, 0x6C, 0x6C]
    else if v == 23 then [0x75, 0x6E, 0x64, 0x65, 0x66, 0x69, 0x6E, 0x65, 0x64]
    else [0x73, 0x69, 0x6D, 0x70, 0x6C, 0x65, 0x28] + Decimal(v) + [0x29]
  }

  /**
   * A scalar node is a string (0), an integer (1), a boolean (3) or null (4) by its resolved tag; keys are strings. None
   * for an integer that is rounded to a double.
   */
  function LeafNode(w: Form, key: bool, tag: seq<byte>): Option<Node>
    requires IsScalar(w)
  {
    match w
    case FInt(negative, lead) =>
      var n := LeadNumber(lead);
      var sign: seq<byte> := if negative then [0x2D] else [];
      if key then Some(Scalar(tag, 0, sign + Decimal(n)))
      else if n > (if negative then 0x8000_0000_0000_0000 else 0x7FFF_FFFF_FFFF_FFFF) then None
      else Some(Scalar(tag, 1, sign + Decimal(if negative then n + 1 else n)))
    case FStr(isText, _, s) => Some(Scalar(tag, 0, if isText || !key then s else HexKey(s)))
    case FChunks(_, parts) => Some(Scalar(tag, 0, PartsText(parts)))
    case FSimple(v) => Some(Scalar(tag, if key || v !in {20, 21, 22} then 0 else if v == 22 then 4 else 3, SimpleWord(v)))
    case FFloat(b) =>
      var x := DoubleOf(if |b| == 2 then Half(Network(b)) else if |b| == 4 then Single(Network(b)) else Double(Network(b)));
      if x.None? then None else Some(FloatNode(tag, x.value))
  }

  /** Tags go to the node behind them, as the text of their chain. */
  function FormNode(w: Form, key: bool, chain: seq<nat>): Option<Node>
    decreases w, 0
  {
    match w
    case FTag(lead, item) => FormNode(item, key, chain + [LeadNumber(lead)])
    case FNest(isMap, _, kids) =>
      var ns := KidsNodes(isMap, kids, 0);
      if ns.None? then None else Some(if isMap then Mapping(ChainText(chain), ns.value) else Sequence(ChainText(chain), ns.value))
    case _ => LeafNode(w, key, ChainText(chain))
  }

  function KidsNodes(isMap: bool, kids: seq<Form>, k: nat): (r: Option<seq<Node>>)
    ensures r.Some? ==> |r.value| == |kids|
    decreases kids, 0
  {
    if kids == [] then Some([])
    else
      var n, ns := FormNode(kids[0], isMap && k % 2 == 0, []), KidsNodes(isMap, kids[1..], k + 1);
      if n.None? || ns.None? then None else Some([n.value] + ns.value)
  }

  // ---- the calls make these nodes ------------------------------------------------------------

  lemma LeafMade(w: Form, key: bool, tag: seq<byte>)
    requires IsScalar(w) && (w.FChunks? ==> !key)
    ensures NodeOfEvent(ScalarCall(w, key, tag)) == LeafNode(w, key, tag)
  {
    hide Decimal, HexKey, DoubleOf, PartsText, LeadNumber;
    match w
    case FInt(negative, lead) =>
      NumberText(negative, LeadNumber(lead));
      NumberText(negative, LeadNumber(lead) + 1);
      NoPattern(negative, LeadNumber(lead));
    case FStr(_, _, _) =>
    case FChunks(_, _) =>
    case FSimple(_) =>
    case FFloat(_) =>
    case _ =>
  }

  lemma NoPattern(negative: bool, n: nat)
    ensures DoubleOf(Beyond(negative, n)).None?
  {}

  /** A form's calls are those of a tree, and the tree's node is the form's. */
  lemma {:induction false} FormTree(w: Form, key: bool, chain: seq<nat>, depth: nat, strict: bool) returns (t: CborFacts.Tree)
    requires FormOk(w, key, |chain|, depth, strict)
    ensures CborFacts.Flat(t) == FormCalls(w, key, chain) && (FormNode(w, key, chain).Some? ==> NodeOf(t) == FormNode(w, key, chain))
    decreases w, 0
  {
    hide ScalarCall, LeafNode, ChainText, LeadNumber, LeadFits, FormOk, KidsOk, Announced;
    match w
    case FTag(lead, item) =>
      TagParts(w, key, |chain|, depth, strict);
      t := FormTree(item, key, chain + [LeadNumber(lead)], depth, strict);
    case FNest(isMap, count, kids) =>
      NestNoKey(w, key, |chain|, depth, strict);
      NestParts(w, depth, strict);
      var ts := KidsTrees(isMap, kids, 0, depth + 1, strict);
      t := CborFacts.Branch(isMap, Announced(isMap, count), ChainText(chain), ts);
    case _ =>
      NoKeyChunks(w, key, |chain|, depth, strict);
      LeafMade(w, key, ChainText(chain));
      t := CborFacts.Scalar(ScalarCall(w, key, ChainText(chain)));
  }

  lemma NoKeyChunks(w: Form, key: bool, links: nat, depth: nat, strict: bool)
    requires FormOk(w, key, links, depth, strict)
    ensures w.FChunks? ==> !key
  {}

  lemma {:induction false} KidsTrees(isMap: bool, kids: seq<Form>, k: nat, depth: nat, strict: bool) returns (ts: seq<CborFacts.Tree>)
    requires KidsOk(isMap, kids, k, depth, strict)
    ensures CborFacts.FlatAll(ts) == KidsCalls(isMap, kids, k)
    ensures KidsNodes(isMap, kids, k).Some? ==> NodesOf(ts) == KidsNodes(isMap, kids, k)
    decreases kids, 0
  {
    hide FormOk, FormCalls, FormNode, CborFacts.Flat, NodeOf, KidsOk;
    if kids == [] {
      ts := [];
    } else {
      KidsStep(isMap, kids, k, depth, strict);
      var t := FormTree(kids[0], isMap && k % 2 == 0, [], depth, strict);
      var rest := KidsTrees(isMap, kids[1..], k + 1, depth, strict);
      ts := [t] + rest;
      assert ts[0] == t && ts[1..] == rest;
    }
  }

  /** Bytes that spell an item decode to the item's document. */
  lemma DocumentOfForm(p: seq<byte>, w: Form, strict: bool)
    requires SpelledBy(p, |p|, w, strict) && FormNode(w, false, []).Some?
    ensures CborDom.Decoded(p, strict) == FormNode(w, false, [])
  {
    hide FormOk, FormCalls, FormNode, FormBytes, NodeOf, CborFacts.Flat, CborDom.Built, Read;
    ReadsExactly(p, strict, FormCalls(w, false, []), |p|);
    var t := FormTree(w, false, [], 0, strict);
    CborDom.SinkBuilds(t);
  }
}
