/**
 * The data items of section 3 of RFC 8949 as concrete syntax: every form an item may take on the wire, the bytes it
 * spells, and the calls it stands for. Reading decides exactly these forms, in both modes.
 */
module CborWire {
  import opened Wrappers
  import opened Bytes
  import opened CborRead
  import opened CborValues
  import CborFacts
  import Utf8

  // ---- forms ------------------------------------------------------------------------

  datatype Spelling = Spelling(small: nat, b: seq<byte>)

  /** An argument as it is spelt: in the first byte, or in b behind it. */
  type Lead = l: Spelling | l.small < 24 && |l.b| in {0, 1, 2, 4, 8} witness Spelling(0, [])

  type SimpleValue = v: nat | v < 24 || 32 <= v < 256

  type FloatWord = b: seq<byte> | |b| in {2, 4, 8} witness [0, 0]

  function LeadNumber(l: Lead): nat { Argument(l.small, l.b) }

  predicate LeadFits(l: Lead, strict: bool) { strict ==> Shortest(LeadNumber(l), |l.b|) }

  function LeadBytes(mt: nat, l: Lead): seq<byte>
    requires mt < 8
  {
    Wire(mt, l.small, l.b)
  }

  /** One chunk of an indefinite-length string. */
  datatype Part = Part(lead: Lead, s: seq<byte>)

  /** A container's lead is None when its length is indefinite. A map's kids alternate keys and values. */
  datatype Form =
    | FInt(negative: bool, lead: Lead)
    | FStr(isText: bool, lead: Lead, s: seq<byte>)
    | FChunks(isText: bool, parts: seq<Part>)
    | FSimple(v: SimpleValue)
    | FFloat(b: FloatWord)
    | FNest(isMap: bool, count: Option<Lead>, kids: seq<Form>)
    | FTag(lead: Lead, item: Form)

  predicate PartOk(isText: bool, c: Part, strict: bool) {
    LeadFits(c.lead, strict) && LeadNumber(c.lead) == |c.s| && (isText ==> Utf8.Valid(c.s))
  }

  /** Strict mode takes only definite text and simple values as keys, under any tags. */
  predicate KeyFits(w: Form, strict: bool) {
    match w
    case FChunks(_, _) | FNest(_, _, _) => false
    case FInt(_, _) | FFloat(_) => !strict
    case FStr(isText, _, _) => isText || !strict
    case _ => true
  }

  /** What may stand here: as a key or not, behind so many tags, in so many containers. */
  predicate FormOk(w: Form, key: bool, links: nat, depth: nat, strict: bool)
    decreases w
  {
    && (key ==> KeyFits(w, strict))
    && match w
       case FInt(_, lead) => LeadFits(lead, strict)
       case FStr(isText, lead, s) => LeadFits(lead, strict) && LeadNumber(lead) == |s| && (isText ==> Utf8.Valid(s))
       case FChunks(isText, parts) => forall k :: 0 <= k < |parts| ==> PartOk(isText, parts[k], strict)
       case FSimple(_) | FFloat(_) => true
       case FNest(isMap, count, kids) =>
         && depth < 1000 && (isMap ==> |kids| % 2 == 0)
         && (count.Some? ==> LeadFits(count.value, strict) && |kids| == if isMap then 2 * LeadNumber(count.value) else LeadNumber(count.value))
         && forall k :: 0 <= k < |kids| ==> FormOk(kids[k], isMap && k % 2 == 0, 0, depth + 1, strict)
       case FTag(lead, item) => LeadFits(lead, strict) && links < 64 && FormOk(item, key, links + 1, depth, strict)
  }

  // ---- the bytes ------------------------------------------------------------------------

  function PartsBytes(isText: bool, parts: seq<Part>): seq<byte>
  {
    if parts == [] then [0xFF] else LeadBytes(if isText then 3 else 2, parts[0].lead) + (parts[0].s + PartsBytes(isText, parts[1..]))
  }

  function FormBytes(w: Form): seq<byte>
    decreases w, 0
  {
    match w
    case FInt(negative, lead) => LeadBytes(if negative then 1 else 0, lead)
    case FStr(isText, lead, s) => LeadBytes(if isText then 3 else 2, lead) + s
    case FChunks(isText, parts) => [if isText then 0x7F else 0x5F] + PartsBytes(isText, parts)
    case FSimple(v) => if v < 24 then [0xE0 + v] else [0xF8, v]
    case FFloat(b) => [if |b| == 2 then 0xF9 else if |b| == 4 then 0xFA else 0xFB] + b
    case FNest(isMap, count, kids) =>
      if count.Some? then LeadBytes(if isMap then 5 else 4, count.value) + KidsBytes(kids)
      else [if isMap then 0xBF else 0x9F] + (KidsBytes(kids) + [0xFF])
    case FTag(lead, item) => LeadBytes(6, lead) + FormBytes(item)
  }

  function KidsBytes(kids: seq<Form>): seq<byte>
    decreases kids, 0
  {
    if kids == [] then [] else FormBytes(kids[0]) + KidsBytes(kids[1..])
  }

  // ---- the calls ------------------------------------------------------------------------

  function PartsText(parts: seq<Part>): seq<byte> {
    if parts == [] then [] else parts[0].s + PartsText(parts[1..])
  }

  /** false, true and null have tag ids of their own, but not as keys. */
  function SimpleCall(v: nat, key: bool, tag: seq<byte>): Event {
    if v == 20 then Text([0x66, 0x61, 0x6C, 0x73, 0x65], if key then 0 else 3, key, tag)
    else if v == 21 then Text([0x74, 0x72, 0x75, 0x65], if key then 0 else 3, key, tag)
    else if v == 22 then Text([0x6E, 0x75, 0x6C, 0x6C], if key then 0 else 4, key, tag)
    else if v == 23 then Text([0x75, 0x6E, 0x64, 0x65, 0x66, 0x69, 0x6E, 0x65, 0x64], 0, key, tag)
    else Text([0x73, 0x69, 0x6D, 0x70, 0x6C, 0x65, 0x28] + Decimal(v) + [0x29], 0, key, tag)
  }

  /** The call of an item that is no container and no tag. */
  function ScalarCall(w: Form, key: bool, tag: seq<byte>): Event
    requires !w.FNest? && !w.FTag?
  {
    match w
    case FInt(negative, lead) =>
      var n := LeadNumber(lead);
      if key then Text((if negative then [0x2D] else []) + Decimal(n), 0, true, tag)
      else if n > (if negative then 0x8000_0000_0000_0000 else 0x7FFF_FFFF_FFFF_FFFF) then Float(Beyond(negative, n), false, tag)
      else Int(negative, if negative then n + 1 else n, false, tag)
    case FStr(isText, _, s) =>
      if isText then Str(s, true, key, tag) else if key then Text(HexKey(s), 0, true, tag) else ByteStr(s, true, false, tag)
    case FChunks(isText, parts) =>
      if isText then Str(PartsText(parts), false, false, tag) else ByteStr(PartsText(parts), false, false, tag)
    case FSimple(v) => SimpleCall(v, key, tag)
    case FFloat(b) =>
      Float(if |b| == 2 then Half(Network(b)) else if |b| == 4 then Single(Network(b)) else Double(Network(b)), key, tag)
  }

  /** How many items a container's opening announces. */
  function Announced(isMap: bool, count: Option<Lead>): Remaining
  {
    if count.None? then UntilBreak else Items(if isMap then 2 * LeadNumber(count.value) else LeadNumber(count.value))
  }

  function FormCalls(w: Form, key: bool, chain: seq<nat>): seq<Event>
    decreases w, 0
  {
    match w
    case FTag(lead, item) => FormCalls(item, key, chain + [LeadNumber(lead)])
    case FNest(isMap, count, kids) =>
      [Open(isMap, Announced(isMap, count), ChainText(chain))] + (KidsCalls(isMap, kids, 0) + [Close(isMap)])
    case _ => [ScalarCall(w, key, ChainText(chain))]
  }

  /** The calls of the kids from place k on; in a map those in even places are keys. */
  function KidsCalls(isMap: bool, kids: seq<Form>, k: nat): seq<Event>
    decreases kids, 0
  {
    if kids == [] then [] else FormCalls(kids[0], isMap && k % 2 == 0, []) + KidsCalls(isMap, kids[1..], k + 1)
  }

  // ---- heads, as they are read ---------------------------------------------------------------

  lemma LeadReads(p: seq<byte>, i: nat, mt: nat, l: Lead, strict: bool)
    requires mt < 8 && Stands(p, i, LeadBytes(mt, l))
    ensures i + 1 + |l.b| <= |p| && p[i] / 32 == mt && p[i] % 32 < 28 && |LeadBytes(mt, l)| == 1 + |l.b|
    ensures ReadArg(p, i + 1, p[i] % 32, strict) == if LeadFits(l, strict) then ArgOk(LeadNumber(l), i + 1 + |l.b|) else ArgBad
  {
    hide Network;
    WireArg(p, i, mt, l.small, l.b, strict);
  }

  /** The lead that stands at a head with an argument. */
  lemma LeadOf(p: seq<byte>, i: nat, strict: bool) returns (l: Lead)
    requires i < |p| && ReadArg(p, i + 1, p[i] % 32, strict).ArgOk?
    ensures LeadFits(l, strict) && Stands(p, i, LeadBytes(p[i] / 32, l))
    ensures ReadArg(p, i + 1, p[i] % 32, strict) == ArgOk(LeadNumber(l), i + 1 + |l.b|)
  {
    hide BigEndian, Network, ReadArg;
    var ai := p[i] % 32;
    ArgWidths(p, i + 1, ai, strict);
    l := if ai < 24 then Spelling(ai, []) else Spelling(0, p[i + 1..i + 1 + ArgWidth(ai)]);
    assert p[i] == p[i] / 32 * 32 + ai;
    assert p[i..i + 1 + |l.b|] == LeadBytes(p[i] / 32, l);
    LeadReads(p, i, p[i] / 32, l, strict);
  }

  lemma ArgWidths(p: seq<byte>, i: nat, ai: nat, strict: bool)
    requires i <= |p| && ReadArg(p, i, ai, strict).ArgOk?
    ensures ai < 28 && (ai >= 24 ==> i + ArgWidth(ai) <= |p|)
  {
    hide BigEndian;
  }

  // ---- strings in chunks --------------------------------------------------------------------

  lemma ChunksStep(p: seq<byte>, i: nat, isText: bool, strict: bool, j: nat, n: nat)
    requires i <= |p| && ReadChunk(p, i, isText, strict) == Data(j, n)
    ensures i < j && j + n <= |p|
    ensures var rest := ReadChunks(p, j + n, isText, strict);
      ReadChunks(p, i, isText, strict) == if rest.ChunksOk? then ChunksOk(p[j..j + n] + rest.bytes, rest.next) else rest
  {
    hide ReadChunk;
  }

  lemma PartsStep(isText: bool, parts: seq<Part>)
    requires parts != []
    ensures PartsBytes(isText, parts) == LeadBytes(if isText then 3 else 2, parts[0].lead) + (parts[0].s + PartsBytes(isText, parts[1..]))
    ensures PartsText(parts) == parts[0].s + PartsText(parts[1..])
  {
    hide LeadBytes;
  }

  lemma NoParts(p: seq<byte>, i: nat, isText: bool, strict: bool)
    requires Stands(p, i, PartsBytes(isText, []))
    ensures i <= |p| && ReadChunks(p, i, isText, strict) == ChunksOk(PartsText([]), i + |PartsBytes(isText, [])|)
  {
    assert p[i] == p[i..i + 1][0];
  }

  lemma PartsFirst(p: seq<byte>, i: nat, isText: bool, parts: seq<Part>, strict: bool) returns (j: nat)
    requires parts != [] && PartOk(isText, parts[0], strict) && Stands(p, i, PartsBytes(isText, parts))
    ensures i <= |p| && ReadChunk(p, i, isText, strict) == Data(j, |parts[0].s|) && j + |parts[0].s| <= |p|
    ensures p[j..j + |parts[0].s|] == parts[0].s && Stands(p, j + |parts[0].s|, PartsBytes(isText, parts[1..]))
    ensures i + |PartsBytes(isText, parts)| == j + |parts[0].s| + |PartsBytes(isText, parts[1..])|
  {
    hide PartsBytes, PartsText, ReadChunk, ReadArg, LeadBytes, PartOk, Stands;
    var c, mt := parts[0], if isText then 3 else 2;
    var rest := PartsBytes(isText, parts[1..]);
    PartsStep(isText, parts);
    StandsSplit(p, i, LeadBytes(mt, c.lead), c.s + rest);
    j := i + |LeadBytes(mt, c.lead)|;
    StandsSplit(p, j, c.s, rest);
    PartOkIs(isText, c, strict);
    LeadReads(p, i, mt, c.lead, strict);
    PartReads(p, i, isText, c, strict, j);
  }

  lemma {:induction false} PartsRead(p: seq<byte>, i: nat, isText: bool, parts: seq<Part>, strict: bool)
    requires forall k :: 0 <= k < |parts| ==> PartOk(isText, parts[k], strict)
    requires Stands(p, i, PartsBytes(isText, parts))
    ensures i <= |p| && ReadChunks(p, i, isText, strict) == ChunksOk(PartsText(parts), i + |PartsBytes(isText, parts)|)
    decreases |parts|
  {
    hide PartsBytes, PartsText, ReadChunks, ReadChunk, PartOk, Stands;
    if parts == [] {
      NoParts(p, i, isText, strict);
    } else {
      var j := PartsFirst(p, i, isText, parts, strict);
      var n := |parts[0].s|;
      PartsRead(p, j + n, isText, parts[1..], strict);
      PartsStep(isText, parts);
      ChunksStep(p, i, isText, strict, j, n);
    }
  }

  lemma PartOkIs(isText: bool, c: Part, strict: bool)
    requires PartOk(isText, c, strict)
    ensures LeadFits(c.lead, strict) && LeadNumber(c.lead) == |c.s| && (isText ==> Utf8.Valid(c.s))
  {}

  lemma PartReads(p: seq<byte>, i: nat, isText: bool, c: Part, strict: bool, j: nat)
    requires LeadNumber(c.lead) == |c.s| && (isText ==> Utf8.Valid(c.s)) && i < j && Stands(p, j, c.s)
    requires p[i] / 32 == (if isText then 3 else 2) && p[i] % 32 < 28 && ReadArg(p, i + 1, p[i] % 32, strict) == ArgOk(LeadNumber(c.lead), j)
    ensures ReadChunk(p, i, isText, strict) == Data(j, |c.s|) && j + |c.s| <= |p| && p[j..j + |c.s|] == c.s
  {
    hide Utf8.Valid, ReadArg, LeadNumber;
  }

  lemma {:induction false} PartsOf(p: seq<byte>, i: nat, isText: bool, strict: bool) returns (parts: seq<Part>)
    requires i <= |p| && ReadChunks(p, i, isText, strict).ChunksOk?
    ensures forall k :: 0 <= k < |parts| ==> PartOk(isText, parts[k], strict)
    ensures Stands(p, i, PartsBytes(isText, parts))
    ensures ReadChunks(p, i, isText, strict) == ChunksOk(PartsText(parts), i + |PartsBytes(isText, parts)|)
    decreases |p| - i, 1
  {
    hide PartOk, ReadArg;
    match ReadChunk(p, i, isText, strict)
    case BadChunk(_) =>
    case Break =>
      parts := [];
      assert p[i..i + 1] == [0xFF];
    case Data(j, n) => parts := DataOf(p, i, isText, strict, j, n);
  }

  lemma {:induction false} DataOf(p: seq<byte>, i: nat, isText: bool, strict: bool, j: nat, n: nat) returns (parts: seq<Part>)
    requires i <= |p| && ReadChunk(p, i, isText, strict) == Data(j, n) && ReadChunks(p, i, isText, strict).ChunksOk?
    ensures forall k :: 0 <= k < |parts| ==> PartOk(isText, parts[k], strict)
    ensures Stands(p, i, PartsBytes(isText, parts))
    ensures ReadChunks(p, i, isText, strict) == ChunksOk(PartsText(parts), i + |PartsBytes(isText, parts)|)
    decreases |p| - i, 0
  {
    hide PartsBytes, PartsText, ReadChunks, ReadChunk, ReadArg, LeadBytes, PartOk, Stands;
    var mt := if isText then 3 else 2;
    var l := DataLead(p, i, isText, strict, j, n);
    var c := Part(l, p[j..j + n]);
    ChunksStep(p, i, isText, strict, j, n);
    var rest := PartsOf(p, j + n, isText, strict);
    parts := [c] + rest;
    assert parts[1..] == rest && parts[0] == c;
    PartsStep(isText, parts);
    SliceStands(p, j, j + n);
    Joined(p, j, c.s, PartsBytes(isText, rest));
    Joined(p, i, LeadBytes(mt, l), c.s + PartsBytes(isText, rest));
  }

  lemma SliceStands(p: seq<byte>, i: nat, j: nat)
    requires i <= j <= |p|
    ensures Stands(p, i, p[i..j])
  {}

  /** The head of a chunk. */
  lemma DataLead(p: seq<byte>, i: nat, isText: bool, strict: bool, j: nat, n: nat) returns (l: Lead)
    requires i <= |p| && ReadChunk(p, i, isText, strict) == Data(j, n)
    ensures j + n <= |p| && PartOk(isText, Part(l, p[j..j + n]), strict)
    ensures Stands(p, i, LeadBytes(if isText then 3 else 2, l)) && i + |LeadBytes(if isText then 3 else 2, l)| == j
  {
    hide Utf8.Valid, ReadArg, LeadNumber, LeadBytes;
    l := LeadOf(p, i, strict);
    LeadReads(p, i, if isText then 3 else 2, l, strict);
  }

  lemma Joined(p: seq<byte>, i: nat, a: seq<byte>, b: seq<byte>)
    requires Stands(p, i, a) && Stands(p, i + |a|, b)
    ensures Stands(p, i, a + b)
  {
    assert p[i..i + |a + b|] == p[i..i + |a|] + p[i + |a|..i + |a| + |b|];
  }

  // ---- scalars --------------------------------------------------------------------------------

  predicate IsScalar(w: Form) { !w.FNest? && !w.FTag? }

  lemma IntReads(p: seq<byte>, i: nat, w: Form, chain: seq<nat>, key: bool, depth: nat, strict: bool)
    requires w.FInt? && FormOk(w, key, |chain|, depth, strict) && Stands(p, i, FormBytes(w))
    ensures ReadHead(p, i, chain, key, depth, strict, false) == Leaf(ScalarCall(w, key, ChainText(chain)), i + |FormBytes(w)|)
  {
    hide ReadHead, ChainText, LeadNumber, LeadBytes, LeadFits, Decimal;
    DefiniteHead(p, i, if w.negative then 1 else 0, w.lead, chain, key, depth, strict);
    NumberText(w.negative, LeadNumber(w.lead));
  }

  lemma NumberText(negative: bool, n: nat)
    ensures SignedDecimal(negative, n) == (if negative then [0x2D] else []) + Decimal(n)
  {
    hide Decimal;
    assert [] + Decimal(n) == Decimal(n);
  }

  /** A head of major type up to 3 with its argument. */
  lemma DefiniteHead(p: seq<byte>, i: nat, mt: nat, l: Lead, chain: seq<nat>, key: bool, depth: nat, strict: bool)
    requires mt < 8 && mt != 7 && LeadFits(l, strict) && Stands(p, i, LeadBytes(mt, l))
    ensures i + |LeadBytes(mt, l)| <= |p|
    ensures var j, n := i + |LeadBytes(mt, l)|, LeadNumber(l);
      ReadHead(p, i, chain, key, depth, strict, false) ==
        if mt <= 1 then IntHead(mt == 1, n, key, strict, ChainText(chain), j)
        else if mt <= 3 then StringHead(p, j, n, mt == 3, key, strict, ChainText(chain))
        else if mt <= 5 then ContainerHead(p, j, mt == 5, Items(n), key, depth, ChainText(chain), false)
        else if |chain| >= TAG_MAX_LINKS then Reject(Parse) else Tag(n, j)
  {
    hide ReadArg, ChainText, LeadNumber, LeadBytes, LeadFits, IntHead, StringHead, ContainerHead;
    LeadReads(p, i, mt, l, strict);
  }

  lemma StrReads(p: seq<byte>, i: nat, w: Form, chain: seq<nat>, key: bool, depth: nat, strict: bool)
    requires w.FStr? && FormOk(w, key, |chain|, depth, strict) && Stands(p, i, FormBytes(w))
    ensures ReadHead(p, i, chain, key, depth, strict, false) == Leaf(ScalarCall(w, key, ChainText(chain)), i + |FormBytes(w)|)
  {
    hide ReadHead, ChainText, LeadNumber, LeadBytes, Utf8.Valid, HexKey, LeadFits;
    var mt := if w.isText then 3 else 2;
    StandsSplit(p, i, LeadBytes(mt, w.lead), w.s);
    DefiniteHead(p, i, mt, w.lead, chain, key, depth, strict);
    hide Stands;
    Slice(p, i + |LeadBytes(mt, w.lead)|, w.s);
  }

  lemma Slice(p: seq<byte>, i: nat, s: seq<byte>)
    requires Stands(p, i, s)
    ensures i + |s| <= |p| && p[i..i + |s|] == s
  {}

  lemma ChunksReads(p: seq<byte>, i: nat, w: Form, chain: seq<nat>, key: bool, depth: nat, strict: bool)
    requires w.FChunks? && FormOk(w, key, |chain|, depth, strict) && Stands(p, i, FormBytes(w))
    ensures ReadHead(p, i, chain, key, depth, strict, false) == Leaf(ScalarCall(w, key, ChainText(chain)), i + |FormBytes(w)|)
  {
    hide ReadArg, ChainText, ReadChunks, PartsBytes, PartsText, PartOk;
    var first := [if w.isText then 0x7F else 0x5F];
    StandsSplit(p, i, first, PartsBytes(w.isText, w.parts));
    PartsRead(p, i + 1, w.isText, w.parts, strict);
    assert p[i] == p[i..i + 1][0];
  }

  lemma SimpleReads(p: seq<byte>, i: nat, w: Form, chain: seq<nat>, key: bool, depth: nat, strict: bool)
    requires w.FSimple? && FormOk(w, key, |chain|, depth, strict) && Stands(p, i, FormBytes(w))
    ensures ReadHead(p, i, chain, key, depth, strict, false) == Leaf(ScalarCall(w, key, ChainText(chain)), i + |FormBytes(w)|)
  {
    hide ChainText, Decimal;
    var b := FormBytes(w);
    assert p[i] == p[i..i + |b|][0] && (w.v >= 24 ==> p[i + 1] == p[i..i + |b|][1]);
    Words(w.v);
  }

  lemma Words(v: nat)
    ensures Ascii("false") == [0x66, 0x61, 0x6C, 0x73, 0x65] && Ascii("true") == [0x74, 0x72, 0x75, 0x65]
    ensures Ascii("null") == [0x6E, 0x75, 0x6C, 0x6C] && Ascii("undefined") == [0x75, 0x6E, 0x64, 0x65, 0x66, 0x69, 0x6E, 0x65, 0x64]
    ensures SimpleText(v) == [0x73, 0x69, 0x6D, 0x70, 0x6C, 0x65, 0x28] + Decimal(v) + [0x29]
  {
    hide Decimal;
    assert Ascii("simple(") == [0x73, 0x69, 0x6D, 0x70, 0x6C, 0x65, 0x28] && Ascii(")") == [0x29];
  }

  lemma FloatReads(p: seq<byte>, i: nat, w: Form, chain: seq<nat>, key: bool, depth: nat, strict: bool)
    requires w.FFloat? && FormOk(w, key, |chain|, depth, strict) && Stands(p, i, FormBytes(w))
    ensures ReadHead(p, i, chain, key, depth, strict, false) == Leaf(ScalarCall(w, key, ChainText(chain)), i + |FormBytes(w)|)
  {
    hide ChainText, Network, BigEndian;
    var first := [if |w.b| == 2 then 0xF9 else if |w.b| == 4 then 0xFA else 0xFB];
    StandsSplit(p, i, first, w.b);
    assert p[i] == p[i..i + 1][0];
    NetworkIs(w.b);
  }

  lemma ScalarReads(p: seq<byte>, i: nat, w: Form, chain: seq<nat>, key: bool, depth: nat, strict: bool)
    requires IsScalar(w) && FormOk(w, key, |chain|, depth, strict) && Stands(p, i, FormBytes(w))
    ensures i <= |p| && ReadHead(p, i, chain, key, depth, strict, false) == Leaf(ScalarCall(w, key, ChainText(chain)), i + |FormBytes(w)|)
  {
    hide ReadHead, ScalarCall, FormOk, FormBytes, ChainText;
    match w
    case FInt(_, _) => IntReads(p, i, w, chain, key, depth, strict);
    case FStr(_, _, _) => StrReads(p, i, w, chain, key, depth, strict);
    case FChunks(_, _) => ChunksReads(p, i, w, chain, key, depth, strict);
    case FSimple(_) => SimpleReads(p, i, w, chain, key, depth, strict);
    case FFloat(_) => FloatReads(p, i, w, chain, key, depth, strict);
    case _ =>
  }

  // ---- byte-string keys as text -----------------------------------------------------------------

  lemma {:induction false} HexTextExactly(s: seq<byte>)
    ensures |HexText(s)| == 2 * |s|
    ensures forall k :: 0 <= k < |s| ==> DigitOf(HexText(s)[2 * k], s[k] / 16) && DigitOf(HexText(s)[2 * k + 1], s[k] % 16)
  {
    if s != [] { HexTextExactly(s[..|s| - 1]); }
  }

  /** c is the lower-case hexadecimal digit of d. */
  predicate DigitOf(c: byte, d: nat) {
    if d < 10 then c == 0x30 + d else c == 0x61 + (d - 10)
  }

  /** A byte-string key reads h'…' with the digits of its first 22 bytes. */
  lemma HexKeyExactly(s: seq<byte>)
    ensures var t, n := HexKey(s), if |s| > 22 then 22 else |s|;
      && |t| == 2 * n + 3 && t[0] == 0x68 && t[1] == 0x27 && t[2 * n + 2] == 0x27
      && forall k :: 0 <= k < n ==> DigitOf(t[2 * k + 2], s[k] / 16) && DigitOf(t[2 * k + 3], s[k] % 16)
  {
    hide HexText, DigitOf;
    var u := if |s| > 22 then s[..22] else s;
    HexTextExactly(u);
    assert Ascii("h'") == [0x68, 0x27] && Ascii("'") == [0x27];
    var n := |u|;
    forall k | 0 <= k < n ensures DigitOf(HexKey(s)[2 * k + 2], s[k] / 16) && DigitOf(HexKey(s)[2 * k + 3], s[k] % 16) {
      assert u[k] == s[k];
      assert HexKey(s)[2 * k + 2] == HexText(u)[2 * k] && HexKey(s)[2 * k + 3] == HexText(u)[2 * k + 1];
    }
  }

  // ---- containers and tags --------------------------------------------------------------------

  ghost predicate KidsOk(isMap: bool, kids: seq<Form>, k: nat, depth: nat, strict: bool) {
    forall j :: 0 <= j < |kids| ==> FormOk(kids[j], isMap && (k + j) % 2 == 0, 0, depth, strict)
  }

  /** A container's items and, when nothing announced their number, the break behind them. */
  function BodyBytes(kids: seq<Form>, rem: Remaining): seq<byte> {
    KidsBytes(kids) + if rem.UntilBreak? then [0xFF] else []
  }

  lemma FirstByte(w: Form)
    ensures FormBytes(w) != [] && FormBytes(w)[0] != 0xFF
  {
    hide KidsBytes, PartsBytes, LeadNumber, FormOk;
  }

  lemma NestParts(w: Form, depth: nat, strict: bool)
    requires w.FNest? && FormOk(w, false, 0, depth, strict)
    ensures depth < 1000 && KidsOk(w.isMap, w.kids, 0, depth + 1, strict)
    ensures w.count.Some? ==> LeadFits(w.count.value, strict) && Announced(w.isMap, w.count) == Items(|w.kids|)
    ensures w.isMap ==> |w.kids| % 2 == 0
    ensures FormBytes(w) == NestHead(w.isMap, w.count) + BodyBytes(w.kids, Announced(w.isMap, w.count))
  {
    hide FormBytes, KidsBytes, LeadFits, LeadNumber, KeyFits;
    NestBytes(w);
  }

  function NestHead(isMap: bool, count: Option<Lead>): seq<byte> {
    if count.Some? then LeadBytes(if isMap then 5 else 4, count.value) else [if isMap then 0xBF else 0x9F]
  }

  lemma NestBytes(w: Form)
    requires w.FNest?
    ensures FormBytes(w) == NestHead(w.isMap, w.count) + BodyBytes(w.kids, Announced(w.isMap, w.count))
  {
    hide KidsBytes, LeadBytes, LeadNumber;
    assert KidsBytes(w.kids) + [] == KidsBytes(w.kids);
  }

  lemma NestReads(p: seq<byte>, i: nat, isMap: bool, count: Option<Lead>, chain: seq<nat>, depth: nat, strict: bool)
    requires count.Some? ==> LeadFits(count.value, strict)
    requires Stands(p, i, NestHead(isMap, count)) && depth < 1000
    ensures i + |NestHead(isMap, count)| <= |p|
    ensures ReadHead(p, i, chain, false, depth, strict, false) ==
      Begin(isMap, Announced(isMap, count), ChainText(chain), i + |NestHead(isMap, count)|)
  {
    hide ReadArg, ChainText, LeadNumber, LeadBytes, LeadFits, IntHead, StringHead;
    if count.Some? {
      DefiniteHead(p, i, if isMap then 5 else 4, count.value, chain, false, depth, strict);
    } else {
      assert p[i] == p[i..i + 1][0];
    }
  }

  /** One step of reading at a head that is no break. */
  lemma ItemStep(p: seq<byte>, i: nat, chain: seq<nat>, f: Frame, depth: nat, strict: bool)
    requires i < |p| && p[i] != 0xFF
    ensures ReadItem(p, i, chain, f, depth, strict, false) ==
      match ReadHead(p, i, chain, f.KeySlot(), depth, strict, false)
      case Reject(s) => Failed([], s)
      case Tag(link, j) => ReadItem(p, j, chain + [link], f, depth, strict, false)
      case Leaf(e, j) => Done([e], j)
      case Begin(isMap, rem, tag, j) =>
        Prepend([Open(isMap, rem, tag)], ReadBody(p, j, Frame(rem, 0, isMap), depth + 1, strict, false))
  {
    hide ReadHead, ReadBody;
  }

  lemma FirstStands(p: seq<byte>, i: nat, w: Form)
    requires Stands(p, i, FormBytes(w))
    ensures i < |p| && p[i] != 0xFF
  {
    hide FormBytes;
    FirstByte(w);
    assert p[i] == p[i..i + |FormBytes(w)|][0];
  }

  /** A form is read to its calls, and exactly its bytes are taken. */
  lemma {:induction false} ItemReads(p: seq<byte>, i: nat, w: Form, chain: seq<nat>, f: Frame, depth: nat, strict: bool)
    requires FormOk(w, f.KeySlot(), |chain|, depth, strict) && Stands(p, i, FormBytes(w))
    ensures i <= |p|
    ensures ReadItem(p, i, chain, f, depth, strict, false) == Done(FormCalls(w, f.KeySlot(), chain), i + |FormBytes(w)|)
    decreases w, 0
  {
    hide ReadItem, ReadBody, ReadHead, ScalarCall, FormOk, FormBytes, ChainText, LeadNumber, LeadBytes, Stands, KidsOk, BodyBytes, NestHead, KidsCalls;
    FirstStands(p, i, w);
    ItemStep(p, i, chain, f, depth, strict);
    match w
    case FTag(lead, item) =>
      TagParts(w, f.KeySlot(), |chain|, depth, strict);
      StandsSplit(p, i, LeadBytes(6, lead), FormBytes(item));
      DefiniteHead(p, i, 6, lead, chain, f.KeySlot(), depth, strict);
      ItemReads(p, i + |LeadBytes(6, lead)|, item, chain + [LeadNumber(lead)], f, depth, strict);
    case FNest(isMap, count, kids) =>
      NestNoKey(w, f.KeySlot(), |chain|, depth, strict);
      NestParts(w, depth, strict);
      var rem := Announced(isMap, count);
      StandsSplit(p, i, NestHead(isMap, count), BodyBytes(kids, rem));
      NestReads(p, i, isMap, count, chain, depth, strict);
      KidsRead(p, i + |NestHead(isMap, count)|, kids, Frame(rem, 0, isMap), depth + 1, strict);
    case _ => ScalarReads(p, i, w, chain, f.KeySlot(), depth, strict);
  }

  lemma TagParts(w: Form, key: bool, links: nat, depth: nat, strict: bool)
    requires w.FTag? && FormOk(w, key, links, depth, strict)
    ensures LeadFits(w.lead, strict) && links < 64 && FormOk(w.item, key, links + 1, depth, strict)
    ensures FormBytes(w) == LeadBytes(6, w.lead) + FormBytes(w.item)
  {
    hide LeadFits, LeadBytes;
  }

  lemma NestNoKey(w: Form, key: bool, links: nat, depth: nat, strict: bool)
    requires w.FNest? && FormOk(w, key, links, depth, strict)
    ensures !key && FormOk(w, false, 0, depth, strict)
  {
    hide LeadFits, LeadNumber;
  }

  lemma KidsStep(isMap: bool, kids: seq<Form>, k: nat, depth: nat, strict: bool)
    requires kids != []
    ensures KidsBytes(kids) == FormBytes(kids[0]) + KidsBytes(kids[1..])
    ensures KidsCalls(isMap, kids, k) == FormCalls(kids[0], isMap && k % 2 == 0, []) + KidsCalls(isMap, kids[1..], k + 1)
    ensures KidsOk(isMap, kids, k, depth, strict) <==>
      FormOk(kids[0], isMap && k % 2 == 0, 0, depth, strict) && KidsOk(isMap, kids[1..], k + 1, depth, strict)
  {
    hide FormBytes, FormCalls, FormOk;
    var rest := kids[1..];
    forall j | 1 <= j < |kids| ensures (isMap && (k + j) % 2 == 0) == (isMap && (k + 1 + (j - 1)) % 2 == 0) && kids[j] == rest[j - 1] {}
    if KidsOk(isMap, kids, k, depth, strict) {
      forall j | 0 <= j < |rest| ensures FormOk(rest[j], isMap && (k + 1 + j) % 2 == 0, 0, depth, strict) {
        assert rest[j] == kids[j + 1] && k + (j + 1) == k + 1 + j;
      }
    }
    if FormOk(kids[0], isMap && k % 2 == 0, 0, depth, strict) && KidsOk(isMap, rest, k + 1, depth, strict) {
      forall j | 0 <= j < |kids| ensures FormOk(kids[j], isMap && (k + j) % 2 == 0, 0, depth, strict) {
        if j > 0 { assert kids[j] == rest[j - 1] && k + 1 + (j - 1) == k + j; }
      }
    }
  }

  /** The items of a container are read one behind the other, up to their number or the break. */
  lemma {:induction false} KidsRead(p: seq<byte>, i: nat, kids: seq<Form>, f: Frame, depth: nat, strict: bool)
    requires KidsOk(f.isMap, kids, f.consumed, depth, strict) && Stands(p, i, BodyBytes(kids, f.rem))
    requires f.rem.Items? ==> f.rem.n == |kids|
    requires f.rem.UntilBreak? && f.isMap ==> (f.consumed + |kids|) % 2 == 0
    ensures i <= |p|
    ensures ReadBody(p, i, f, depth, strict, false) ==
      Done(KidsCalls(f.isMap, kids, f.consumed) + [Close(f.isMap)], i + |BodyBytes(kids, f.rem)|)
    decreases kids, 0
  {
    hide ReadItem, ReadBody, FormOk, FormBytes, Stands, KidsOk, KidsCalls, FormCalls, KidsBytes, BodyBytes;
    if kids == [] {
      BodyEnd(p, i, f, depth, strict);
    } else {
      var w, rest := kids[0], kids[1..];
      KidsStep(f.isMap, kids, f.consumed, depth, strict);
      BodyFirst(kids, f.rem);
      StandsSplit(p, i, FormBytes(w), BodyBytes(rest, f.rem));
      FirstStands(p, i, w);
      ItemReads(p, i, w, [], f, depth, strict);
      var j := i + |FormBytes(w)|;
      NextRem(f);
      KidsRead(p, j, rest, f.Next(), depth, strict);
      BodyStep(p, i, f, depth, strict);
      var a, b := FormCalls(w, f.KeySlot(), []), KidsCalls(f.isMap, rest, f.consumed + 1);
      assert a + (b + [Close(f.isMap)]) == a + b + [Close(f.isMap)];
    }
  }

  lemma NextRem(f: Frame)
    requires f.rem.Items? ==> f.rem.n > 0
    ensures f.Next().rem.UntilBreak? == f.rem.UntilBreak? && f.Next().consumed == f.consumed + 1 && f.Next().isMap == f.isMap
    ensures f.rem.Items? ==> f.Next().rem == Items(f.rem.n - 1)
  {}

  lemma BodyEnd(p: seq<byte>, i: nat, f: Frame, depth: nat, strict: bool)
    requires Stands(p, i, BodyBytes([], f.rem)) && (f.rem.Items? ==> f.rem.n == 0)
    requires f.rem.UntilBreak? && f.isMap ==> f.consumed % 2 == 0
    ensures i <= |p|
    ensures ReadBody(p, i, f, depth, strict, false) ==
      Done(KidsCalls(f.isMap, [], f.consumed) + [Close(f.isMap)], i + |BodyBytes([], f.rem)|)
  {
    if f.rem.UntilBreak? { assert p[i] == p[i..i + 1][0]; }
  }

  lemma BodyFirst(kids: seq<Form>, rem: Remaining)
    requires kids != []
    ensures BodyBytes(kids, rem) == FormBytes(kids[0]) + BodyBytes(kids[1..], rem)
    ensures forall r: Remaining :: r.UntilBreak? == rem.UntilBreak? ==> BodyBytes(kids[1..], r) == BodyBytes(kids[1..], rem)
  {
    hide FormBytes;
    var a, b, c := FormBytes(kids[0]), KidsBytes(kids[1..]), if rem.UntilBreak? then [0xFF] else [];
    assert a + b + c == a + (b + c);
  }

  lemma BodyStep(p: seq<byte>, i: nat, f: Frame, depth: nat, strict: bool)
    requires i < |p| && p[i] != 0xFF && f.rem != Items(0) && ReadItem(p, i, [], f, depth, strict, false).Done?
    ensures var o := ReadItem(p, i, [], f, depth, strict, false);
      ReadBody(p, i, f, depth, strict, false) == Prepend(o.events, ReadBody(p, o.next, f.Next(), depth, strict, false))
  {
    hide ReadItem;
  }

  // ---- the form that was read -----------------------------------------------------------------

  lemma HeadLead(p: seq<byte>, i: nat, chain: seq<nat>, key: bool, depth: nat, strict: bool) returns (l: Lead)
    requires i < |p| && p[i] / 32 != 7 && p[i] % 32 != 31 && !ReadHead(p, i, chain, key, depth, strict, false).Reject?
    ensures LeadFits(l, strict) && Stands(p, i, LeadBytes(p[i] / 32, l)) && i + |LeadBytes(p[i] / 32, l)| <= |p|
  {
    hide ReadArg, ChainText, LeadNumber, LeadBytes, LeadFits, IntHead, StringHead, ContainerHead, ReadChunks;
    l := LeadOf(p, i, strict);
    DefiniteHead(p, i, p[i] / 32, l, chain, key, depth, strict);
  }

  lemma IntForm(p: seq<byte>, i: nat, chain: seq<nat>, key: bool, depth: nat, strict: bool) returns (w: Form)
    requires i < |p| && p[i] / 32 <= 1 && p[i] % 32 != 31 && ReadHead(p, i, chain, key, depth, strict, false).Leaf?
    ensures IsScalar(w) && FormOk(w, key, |chain|, depth, strict) && Stands(p, i, FormBytes(w))
  {
    hide ReadHead, ChainText, LeadNumber, LeadBytes, LeadFits, Stands, Decimal;
    var l := HeadLead(p, i, chain, key, depth, strict);
    DefiniteHead(p, i, p[i] / 32, l, chain, key, depth, strict);
    w := FInt(p[i] / 32 == 1, l);
  }

  lemma StrForm(p: seq<byte>, i: nat, chain: seq<nat>, key: bool, depth: nat, strict: bool) returns (w: Form)
    requires i < |p| && 2 <= p[i] / 32 <= 3 && p[i] % 32 != 31 && ReadHead(p, i, chain, key, depth, strict, false).Leaf?
    ensures IsScalar(w) && FormOk(w, key, |chain|, depth, strict) && Stands(p, i, FormBytes(w))
  {
    hide ReadHead, ChainText, LeadNumber, LeadBytes, LeadFits, Stands, Utf8.Valid, HexKey;
    var mt := p[i] / 32;
    var l := HeadLead(p, i, chain, key, depth, strict);
    DefiniteHead(p, i, mt, l, chain, key, depth, strict);
    var j := i + |LeadBytes(mt, l)|;
    w := FStr(mt == 3, l, p[j..j + LeadNumber(l)]);
    SliceStands(p, j, j + LeadNumber(l));
    Joined(p, i, LeadBytes(mt, l), w.s);
  }

  lemma ChunksForm(p: seq<byte>, i: nat, chain: seq<nat>, key: bool, depth: nat, strict: bool) returns (w: Form)
    requires i < |p| && 2 <= p[i] / 32 <= 3 && p[i] % 32 == 31 && ReadHead(p, i, chain, key, depth, strict, false).Leaf?
    ensures IsScalar(w) && FormOk(w, key, |chain|, depth, strict) && Stands(p, i, FormBytes(w))
  {
    hide ReadArg, ChainText, ReadChunks, PartsBytes, PartOk, LeadFits;
    var parts := PartsOf(p, i + 1, p[i] / 32 == 3, strict);
    w := FChunks(p[i] / 32 == 3, parts);
    SliceStands(p, i, i + 1);
    assert p[i..i + 1] == [p[i]];
    Joined(p, i, [p[i]], PartsBytes(w.isText, parts));
  }

  lemma SevenType(p: seq<byte>, i: nat, chain: seq<nat>, key: bool, depth: nat, strict: bool)
    requires i < |p| && p[i] / 32 == 7 && ReadHead(p, i, chain, key, depth, strict, false).Leaf?
    ensures var ai := p[i] % 32;
      || ai < 24
      || (ai == 24 && i + 1 < |p| && p[i + 1] >= 32)
      || (24 < ai < 28 && i + 1 + (if ai == 25 then 2 else if ai == 26 then 4 else 8) <= |p| && !(key && strict))
  {
    hide ChainText, BigEndian, SimpleEvent;
  }

  lemma SevenForm(p: seq<byte>, i: nat, chain: seq<nat>, key: bool, depth: nat, strict: bool) returns (w: Form)
    requires i < |p| && p[i] / 32 == 7 && ReadHead(p, i, chain, key, depth, strict, false).Leaf?
    ensures IsScalar(w) && FormOk(w, key, |chain|, depth, strict) && Stands(p, i, FormBytes(w))
  {
    hide ReadHead;
    SevenType(p, i, chain, key, depth, strict);
    var ai := p[i] % 32;
    if ai < 24 {
      w := FSimple(ai);
      assert p[i..i + 1] == [p[i]];
    } else if ai == 24 {
      w := FSimple(p[i + 1]);
      assert p[i..i + 2] == [p[i], p[i + 1]];
    } else {
      var n := if ai == 25 then 2 else if ai == 26 then 4 else 8;
      w := FFloat(p[i + 1..i + 1 + n]);
      assert p[i..i + 1 + n] == [p[i]] + p[i + 1..i + 1 + n];
    }
  }

  lemma LeafForm(p: seq<byte>, i: nat, chain: seq<nat>, key: bool, depth: nat, strict: bool) returns (w: Form)
    requires i <= |p| && ReadHead(p, i, chain, key, depth, strict, false).Leaf?
    ensures IsScalar(w) && FormOk(w, key, |chain|, depth, strict) && Stands(p, i, FormBytes(w))
  {
    LeafType(p, i, chain, key, depth, strict);
    hide ReadHead, FormOk, FormBytes, Stands;
    var mt, ai := p[i] / 32, p[i] % 32;
    if mt == 7 {
      w := SevenForm(p, i, chain, key, depth, strict);
    } else if ai == 31 {
      w := ChunksForm(p, i, chain, key, depth, strict);
    } else if mt <= 1 {
      w := IntForm(p, i, chain, key, depth, strict);
    } else {
      w := StrForm(p, i, chain, key, depth, strict);
    }
  }

  lemma LeafType(p: seq<byte>, i: nat, chain: seq<nat>, key: bool, depth: nat, strict: bool)
    requires i <= |p| && ReadHead(p, i, chain, key, depth, strict, false).Leaf?
    ensures i < |p| && (p[i] / 32 <= 3 || p[i] / 32 == 7) && (p[i] / 32 <= 1 ==> p[i] % 32 != 31)
  {
    hide ReadArg, ChainText, ReadChunks, IntHead, StringHead, SimpleHead;
  }

  /** The opening of a container that was read. */
  lemma NestForm(p: seq<byte>, i: nat, chain: seq<nat>, key: bool, depth: nat, strict: bool) returns (isMap: bool, count: Option<Lead>)
    requires i <= |p| && ReadHead(p, i, chain, key, depth, strict, false).Begin?
    ensures !key && depth < 1000 && Stands(p, i, NestHead(isMap, count)) && (count.Some? ==> LeadFits(count.value, strict))
  {
    BeginType(p, i, chain, key, depth, strict);
    hide ReadHead, LeadNumber, LeadBytes, LeadFits, Stands;
    isMap := p[i] / 32 == 5;
    if p[i] % 32 == 31 {
      count := None;
      SliceStands(p, i, i + 1);
      assert p[i..i + 1] == [p[i]];
    } else {
      var l := HeadLead(p, i, chain, key, depth, strict);
      count := Some(l);
    }
  }

  lemma BeginType(p: seq<byte>, i: nat, chain: seq<nat>, key: bool, depth: nat, strict: bool)
    requires i <= |p| && ReadHead(p, i, chain, key, depth, strict, false).Begin?
    ensures i < |p| && 4 <= p[i] / 32 <= 5 && !key && depth < 1000
  {
    hide ReadArg, ChainText, ReadChunks, SignedDecimal;
  }

  lemma TagForm(p: seq<byte>, i: nat, chain: seq<nat>, key: bool, depth: nat, strict: bool) returns (l: Lead)
    requires i <= |p| && ReadHead(p, i, chain, key, depth, strict, false).Tag?
    ensures |chain| < 64 && LeadFits(l, strict) && Stands(p, i, LeadBytes(6, l))
    ensures ReadHead(p, i, chain, key, depth, strict, false) == Tag(LeadNumber(l), i + |LeadBytes(6, l)|)
  {
    TagType(p, i, chain, key, depth, strict);
    hide ReadHead, LeadNumber, LeadBytes, LeadFits, Stands;
    l := HeadLead(p, i, chain, key, depth, strict);
    DefiniteHead(p, i, 6, l, chain, key, depth, strict);
  }

  lemma TagType(p: seq<byte>, i: nat, chain: seq<nat>, key: bool, depth: nat, strict: bool)
    requires i <= |p| && ReadHead(p, i, chain, key, depth, strict, false).Tag?
    ensures i < |p| && p[i] / 32 == 6 && p[i] % 32 != 31
  {
    hide ReadArg, ChainText, ReadChunks, SignedDecimal;
  }

  lemma NotBreak(p: seq<byte>, i: nat, chain: seq<nat>, f: Frame, depth: nat, strict: bool)
    requires i <= |p| && ReadItem(p, i, chain, f, depth, strict, false).Done?
    ensures i < |p| && p[i] != 0xFF
  {
    hide ReadArg, ChainText, ReadChunks, ReadBody, IntHead;
  }

  /** Whatever is read has a form. */
  lemma {:induction false} ItemForm(p: seq<byte>, i: nat, chain: seq<nat>, f: Frame, depth: nat, strict: bool) returns (w: Form)
    requires i <= |p| && ReadItem(p, i, chain, f, depth, strict, false).Done?
    ensures FormOk(w, f.KeySlot(), |chain|, depth, strict) && Stands(p, i, FormBytes(w))
    decreases |p| - i, 0
  {
    hide ReadItem, ReadBody, ReadHead, FormOk, FormBytes, LeadNumber, LeadBytes, LeadFits, Stands, KidsOk, BodyBytes, NestHead;
    NotBreak(p, i, chain, f, depth, strict);
    ItemStep(p, i, chain, f, depth, strict);
    var key := f.KeySlot();
    match ReadHead(p, i, chain, key, depth, strict, false)
    case Reject(_) =>
    case Tag(link, j) =>
      var l := TagForm(p, i, chain, key, depth, strict);
      var item := ItemForm(p, j, chain + [link], f, depth, strict);
      w := FTag(l, item);
      Tagged(w, key, |chain|, depth, strict);
      Joined(p, i, LeadBytes(6, l), FormBytes(item));
    case Leaf(e, j) => w := LeafForm(p, i, chain, key, depth, strict);
    case Begin(isMap, rem, _, j) =>
      var m, count := NestForm(p, i, chain, key, depth, strict);
      NestReads(p, i, m, count, chain, depth, strict);
      var kids := KidsForm(p, j, Frame(rem, 0, isMap), depth + 1, strict);
      w := FNest(m, count, kids);
      Nested(w, |chain|, depth, strict);
      Joined(p, i, NestHead(m, count), BodyBytes(kids, rem));
  }

  lemma Tagged(w: Form, key: bool, links: nat, depth: nat, strict: bool)
    requires w.FTag? && LeadFits(w.lead, strict) && links < 64 && FormOk(w.item, key, links + 1, depth, strict)
    ensures FormOk(w, key, links, depth, strict) && FormBytes(w) == LeadBytes(6, w.lead) + FormBytes(w.item)
  {
    hide LeadFits, LeadBytes;
  }

  lemma Nested(w: Form, links: nat, depth: nat, strict: bool)
    requires w.FNest? && depth < 1000 && KidsOk(w.isMap, w.kids, 0, depth + 1, strict) && (w.isMap ==> |w.kids| % 2 == 0)
    requires w.count.Some? ==> LeadFits(w.count.value, strict) && Announced(w.isMap, w.count) == Items(|w.kids|)
    ensures FormOk(w, false, links, depth, strict)
    ensures FormBytes(w) == NestHead(w.isMap, w.count) + BodyBytes(w.kids, Announced(w.isMap, w.count))
  {
    hide FormBytes, KidsBytes, LeadFits, LeadNumber;
    NestBytes(w);
    assert forall k :: 0 <= k < |w.kids| ==> FormOk(w.kids[k], w.isMap && (0 + k) % 2 == 0, 0, depth + 1, strict);
  }

  lemma {:induction false} KidsForm(p: seq<byte>, i: nat, f: Frame, depth: nat, strict: bool) returns (kids: seq<Form>)
    requires i <= |p| && ReadBody(p, i, f, depth, strict, false).Done?
    ensures KidsOk(f.isMap, kids, f.consumed, depth, strict) && Stands(p, i, BodyBytes(kids, f.rem))
    ensures f.rem.Items? ==> f.rem.n == |kids|
    ensures f.rem.UntilBreak? && f.isMap ==> (f.consumed + |kids|) % 2 == 0
    decreases |p| - i, 1
  {
    hide ReadItem, ReadBody, FormOk, FormBytes, Stands, KidsOk, KidsBytes, BodyBytes, FormCalls, KidsCalls;
    if f.rem == Items(0) || (i < |p| && p[i] == 0xFF) {
      kids := [];
      EndForm(p, i, f, depth, strict);
    } else {
      BodyGoesOn(p, i, f, depth, strict);
      var w := ItemForm(p, i, [], f, depth, strict);
      ItemReads(p, i, w, [], f, depth, strict);
      FirstStands(p, i, w);
      BodyStep(p, i, f, depth, strict);
      NextRem(f);
      var rest := KidsForm(p, i + |FormBytes(w)|, f.Next(), depth, strict);
      kids := [w] + rest;
      assert kids[0] == w && kids[1..] == rest;
      KidsStep(f.isMap, kids, f.consumed, depth, strict);
      BodyFirst(kids, f.rem);
      Joined(p, i, FormBytes(w), BodyBytes(rest, f.rem));
    }
  }

  lemma EndForm(p: seq<byte>, i: nat, f: Frame, depth: nat, strict: bool)
    requires i <= |p| && ReadBody(p, i, f, depth, strict, false).Done?
    requires f.rem == Items(0) || (i < |p| && p[i] == 0xFF)
    ensures KidsOk(f.isMap, [], f.consumed, depth, strict) && Stands(p, i, BodyBytes([], f.rem))
    ensures (f.rem.Items? ==> f.rem.n == 0) && (f.rem.UntilBreak? && f.isMap ==> f.consumed % 2 == 0)
  {
    hide ReadHead;
    if f.rem.UntilBreak? { assert p[i..i + 1] == [0xFF]; }
    else if f.rem.n > 0 { NotBreak(p, i, [], f, depth, strict); }
  }

  lemma BodyGoesOn(p: seq<byte>, i: nat, f: Frame, depth: nat, strict: bool)
    requires i <= |p| && ReadBody(p, i, f, depth, strict, false).Done? && f.rem != Items(0) && (i < |p| ==> p[i] != 0xFF)
    ensures ReadItem(p, i, [], f, depth, strict, false).Done?
    ensures ReadBody(p, ReadItem(p, i, [], f, depth, strict, false).next, f.Next(), depth, strict, false).Done?
  {
    hide ReadItem;
  }

  // ---- the law --------------------------------------------------------------------------------

  /** The first n bytes of p spell w, an item that may stand alone. */
  ghost predicate SpelledBy(p: seq<byte>, n: nat, w: Form, strict: bool) {
    n <= |p| && FormBytes(w) == p[..n] && FormOk(w, false, 0, 0, strict)
  }

  /** Bytes are read exactly when they begin with a form; its calls are made and its bytes taken. */
  lemma ReadsExactly(p: seq<byte>, strict: bool, e: seq<Event>, n: nat)
    ensures Read(p, strict) == Done(e, n) <==> exists w :: SpelledBy(p, n, w, strict) && FormCalls(w, false, []) == e
  {
    hide ReadItem, FormOk, FormBytes, FormCalls;
    CborFacts.GuardNeverEarly(p, 0, [], TOP, 0, strict);
    if Read(p, strict) == Done(e, n) {
      var w := ItemForm(p, 0, [], TOP, 0, strict);
      ItemReads(p, 0, w, [], TOP, 0, strict);
      assert SpelledBy(p, n, w, strict);
    }
    if exists w :: SpelledBy(p, n, w, strict) && FormCalls(w, false, []) == e {
      var w :| SpelledBy(p, n, w, strict) && FormCalls(w, false, []) == e;
      ItemReads(p, 0, w, [], TOP, 0, strict);
    }
  }
}
