/**
 * Marshal to CBOR, one construct at a time: what the writer spells is read back as the item of the node it
 * stands for. A bignum takes a link slot when it is read but no object number when it is written.
 */
module MarshalTranscode {
  import opened Wrappers
  import opened Bytes
  import opened MarshalNumber
  import opened MarshalWrite
  import opened MarshalTree
  import opened MarshalRead
  import CborHeads
  import CborEncode
  import CborCanonical
  import CborRead
  import Utf8

  // ---- one construct, read back -------------------------------------------------------

  lemma StandsFrom(s: seq<byte>, at: nat, b: seq<byte>)
    requires Stands(s, at, b)
    ensures at <= |s| && s[at..] == b + s[at + |b|..]
    ensures b != [] ==> at < |s| && s[at] == b[0]
  {
    assert s[at..at + |b|] + s[at + |b|..] == s[at..];
    if b != [] { assert s[at..at + |b|][0] == s[at]; }
  }

  lemma LongReads(s: seq<byte>, at: nat, x: int)
    requires -0x100_0000_0000 < x < 0x1_0000_0000 && Stands(s, at, LongBytes(x))
    ensures TakeLong(s, at) == Taken(x, at + |LongBytes(x)|)
  {
    hide LongBytes, ReadLong;
    StandsFrom(s, at, LongBytes(x));
    LongRoundTrip(x, s[at + |LongBytes(x)|..]);
  }

  lemma BytesRead(s: seq<byte>, at: nat, p: Span)
    requires Stands(s, at, LongBytes(|p|) + p)
    ensures TakeBytes(s, at) == Cutting(p, at + |LongBytes(|p|)| + |p|)
  {
    hide LongBytes, TakeLong;
    StandsSplit(s, at, LongBytes(|p|), p);
    LongReads(s, at, |p|);
    LongNotEmpty(|p|);
  }

  lemma LongNotEmpty(x: int)
    requires INT64_MIN < x < -INT64_MIN
    ensures LongBytes(x) != []
  {
  }

  /** A writer's string stands for one slot, one symbol and the string's item. */
  function AfterString(m: Memory, p: Span, b: seq<byte>, used: nat): Memory {
    Memory(m.at + used, m.syms + [[0x45]], m.objs + [Memo(0x22, Some(Payload(p, Utf8Text)), Some(b))])
  }

  lemma TailReads(c: Config, m: Memory, inKey: bool, depth: nat)
    requires Stands(c.s, m.at, STRING_TAIL) && depth < MAX_DEPTH
    ensures IvarPairs(c, m, inKey, depth) == Ivars(Utf8Text, m.(at := m.at + 5, syms := m.syms + [[0x45]]))
  {
    hide Construct, LongBytes;
    var s := c.s;
    var w := s[m.at..m.at + 5];
    assert w[0] == s[m.at] && w[1] == s[m.at + 1] && w[2] == s[m.at + 2] && w[3] == s[m.at + 3] && w[4] == s[m.at + 4];
    assert LongBytes(1) == [0x06] by { OneIsSix(); }
    assert s[m.at..m.at + 1] == [0x06] && s[m.at + 2..m.at + 3] == [0x06];
    LongReads(s, m.at, 1);
    var m1 := m.(at := m.at + 1);
    assert s[m.at + 2..m.at + 4] == LongBytes(1) + [0x45];
    BytesRead(s, m.at + 2, [0x45]);
    assert s[m.at + 1] == 0x3A;
    var m2 := m.(at := m.at + 4, syms := m.syms + [[0x45]]);
    assert IvarName(c, m1) == Name([0x45], m2);
    TrueReads(c, m2, inKey, depth);
    var m3 := m2.(at := m.at + 5);
    assert IvarList(c, m3, 0, Utf8Text, inKey, depth) == Ivars(Utf8Text, m3);
    assert EncodingAfter(Binary, [0x45], 0x54) == Utf8Text;
  }

  lemma OneIsSix()
    ensures LongBytes(1) == [0x06]
  {
  }

  lemma TrueReads(c: Config, m: Memory, inKey: bool, depth: nat)
    requires m.at < |c.s| && c.s[m.at] == 0x54 && depth < MAX_DEPTH
    ensures Value(c, m, inKey, false, depth, false) == Item([], m.(at := m.at + 1))
  {
  }

  lemma StringReads(c: Config, m: Memory, inKey: bool, depth: nat, p: Span)
    requires Stands(c.s, m.at, StrBytes(p)) && depth < MAX_DEPTH
    ensures Value(c, m, inKey, true, depth, false)
         == match StringItem(c.host, inKey, p, Utf8Text)
            case None => Declined
            case Some(b) => Item(b, AfterString(m, p, b, |StrBytes(p)|))
  {
    hide LongBytes, StringItem, TakeBytes, IvarPairs;
    var s := c.s;
    var long := LongBytes(|p|);
    assert StrBytes(p) == [0x49, 0x22] + ((long + p) + STRING_TAIL);
    StandsSplit(s, m.at, [0x49, 0x22], (long + p) + STRING_TAIL);
    StandsSplit(s, m.at + 2, long + p, STRING_TAIL);
    StandsFrom(s, m.at, [0x49, 0x22]);
    assert s[m.at..m.at + 2][1] == s[m.at + 1];
    BytesRead(s, m.at + 2, p);
    var m1 := Begin(s, m, true);
    var k := m.at + 2 + |long + p|;
    TailReads(c, m1.(at := k), inKey, depth);
    WrappedReads(c, m1, Some(|m.objs|), inKey, depth, p, k);
    NotedLast(m, m1, p, k);
  }

  lemma WrappedReads(c: Config, m: Memory, slot: Option<nat>, inKey: bool, depth: nat, p: Span, k: nat)
    requires m.at < |c.s| && c.s[m.at] == 0x22 && m.at + 1 < k <= |c.s| && TakeBytes(c.s, m.at + 1) == Cutting(p, k)
    requires IvarPairs(c, m.(at := k), inKey, depth) == Ivars(Utf8Text, m.(at := k + 5, syms := m.syms + [[0x45]]))
    ensures Construct(c, m, 0x49, slot, inKey, true, depth)
         == Out(true, StringItem(c.host, inKey, p, Utf8Text),
                Noted(m.(at := k + 5, syms := m.syms + [[0x45]]), slot, Payload(p, Utf8Text)))
  {
    hide TakeBytes, IvarPairs, StringItem;
  }

  lemma NotedLast(m: Memory, m1: Memory, p: Span, k: nat)
    requires m.at <= k && m1.syms == m.syms && m1.objs == m.objs + [Memo(0x22, None, None)]
    ensures var n := Noted(m1.(at := k + 5, syms := m1.syms + [[0x45]]), Some(|m.objs|), Payload(p, Utf8Text));
      forall b :: Finish(Item(b, n), |m.objs|, true) == Item(b, AfterString(m, p, b, k + 5 - m.at))
  {
  }

  // ---- scalars ----------------------------------------------------------------------

  /** How the writer spells a scalar; big is Marshal's 'l'. */
  datatype Spelling =
    | NullWord
    | Truth(b: bool)
    | Whole(negative: bool, v: nat, big: bool)
    | FloatWord(repr: Span)
    | Text(p: Span)
    | Symbol(p: Span)

  predicate Spellable(sp: Spelling) {
    match sp
    case Whole(_, v, big) => if big then LimbCount(v) < 0x1_0000_0000 else v < 0x4000_0000
    case FloatWord(repr) => |repr| < 40
    case _ => true
  }

  function SpellingOf(r: ScalarRecord, compat: bool): (sp: Spelling)
    ensures Spellable(sp)
  {
    match r.kind
    case Null => NullWord
    case Bool => if |r.text| == 1 then Text(r.text) else Truth(r.b)
    case Int => Int64Limbs(Magnitude(r.p)); Whole(r.p < 0, Magnitude(r.p), Magnitude(r.p) >= 0x4000_0000)
    case Float => if FloatText(compat, r.text) then FloatWord(r.repr) else Text(r.text)
    case Str =>
      if BignumText(r) then Whole(Negative(r.text), BignumValue(r.text), true)
      else if r.b && SymbolText(r.text) then Symbol(r.text[1..])
      else Text(r.text)
  }

  function SpellingBytes(sp: Spelling): seq<byte>
    requires Spellable(sp)
  {
    match sp
    case NullWord => [0x30]
    case Truth(b) => [if b then 0x54 else 0x46]
    case Whole(negative, v, big) => if big then BignumBytes(negative, v) else [0x69] + LongBytes(Sign(negative, v))
    case FloatWord(repr) => FloatBytes(repr)
    case Text(p) => StrBytes(p)
    case Symbol(p) => SymBytes(p)
  }

  /** The writer gives it an object number. */
  predicate Registering(sp: Spelling) { sp.FloatWord? || sp.Text? }

  predicate Bulky(sp: Spelling) { sp.Whole? && sp.big }

  lemma ScalarWrites(r: ScalarRecord, compat: bool, st: State)
    ensures var sp := SpellingOf(r, compat);
      WriteScalar(r, compat, st) == if Registering(sp) then Register(SpellingBytes(sp), st) else Plain(SpellingBytes(sp), st)
  {
    hide LongBytes, BignumBytes, LimbCount, BignumText, BignumValue, SymbolText, FloatText;
    Int64Limbs(Magnitude(if r.kind.Int? then r.p else 0));
  }

  /** The item a scalar becomes in a value or a key slot. */
  function SpellingItem(host: Host, key: bool, sp: Spelling): Option<seq<byte>> {
    match sp
    case NullWord => Some([0xF6])
    case Truth(b) => Some([if b then 0xF5 else 0xF4])
    case Whole(negative, v, _) => if v >= TWO_64 then None else Some(IntegerItem(host, Sign(negative, v)))
    case FloatWord(repr) => FloatItem(host, repr)
    case Text(p) => StringItem(host, key, p, Utf8Text)
    case Symbol(p) => Some(SymbolItem(p))
  }

  /** The slots it takes in the reader's memo. */
  function SpellingMemos(sp: Spelling, b: seq<byte>): seq<Memo> {
    match sp
    case Whole(_, _, true) => [Memo(0x6C, None, Some(b))]
    case FloatWord(_) => [Memo(0x66, None, Some(b))]
    case Text(p) => [Memo(0x22, Some(Payload(p, Utf8Text)), Some(b))]
    case _ => []
  }

  /** The walk took used bytes, gave b and left these slots behind. */
  predicate Reads(r: Item, m: Memory, used: nat, b: seq<byte>, memos: seq<Memo>) {
    r.Item? && r.bytes == b && r.m.at == m.at + used && r.m.objs == m.objs + memos
  }

  predicate ReadsAs(r: Item, m: Memory, used: nat, b: Option<seq<byte>>, sp: Spelling) {
    match b
    case None => r.Declined?
    case Some(b) => Reads(r, m, used, b, SpellingMemos(sp, b))
  }

  lemma WordReads(c: Config, m: Memory, key: bool, depth: nat, t: byte)
    requires m.at < |c.s| && c.s[m.at] == t && depth < MAX_DEPTH && (t == 0x30 || t == 0x54 || t == 0x46)
    ensures Value(c, m, key, true, depth, false)
         == Item([if t == 0x30 then 0xF6 else if t == 0x54 then 0xF5 else 0xF4], m.(at := m.at + 1))
  {
  }

  lemma SmallReads(c: Config, m: Memory, key: bool, depth: nat, x: int)
    requires -0x4000_0000 < x < 0x4000_0000 && Stands(c.s, m.at, [0x69] + LongBytes(x)) && depth < MAX_DEPTH
    ensures Value(c, m, key, true, depth, false)
         == Item(IntegerItem(c.host, x), m.(at := m.at + 1 + |LongBytes(x)|))
  {
    hide LongBytes, TakeLong, IntegerItem;
    StandsSplit(c.s, m.at, [0x69], LongBytes(x));
    StandsFrom(c.s, m.at, [0x69]);
    LongReads(c.s, m.at + 1, x);
  }

  lemma SymbolReads(c: Config, m: Memory, key: bool, depth: nat, p: Span)
    requires Stands(c.s, m.at, SymBytes(p)) && depth < MAX_DEPTH
    ensures Value(c, m, key, true, depth, false)
         == Item(SymbolItem(p), m.(at := m.at + |SymBytes(p)|, syms := m.syms + [p]))
  {
    hide LongBytes, TakeBytes, SymbolItem;
    assert SymBytes(p) == [0x3A] + (LongBytes(|p|) + p);
    StandsSplit(c.s, m.at, [0x3A], LongBytes(|p|) + p);
    StandsFrom(c.s, m.at, [0x3A]);
    BytesRead(c.s, m.at + 1, p);
  }

  lemma FloatReads(c: Config, m: Memory, key: bool, depth: nat, p: Span)
    requires |p| < 40 && Stands(c.s, m.at, FloatBytes(p)) && depth < MAX_DEPTH
    ensures ReadsAs(Value(c, m, key, true, depth, false), m, |FloatBytes(p)|, FloatItem(c.host, p), FloatWord(p))
  {
    hide LongBytes, TakeBytes, FloatItem;
    assert FloatBytes(p) == [0x66] + (LongBytes(|p|) + p);
    StandsSplit(c.s, m.at, [0x66], LongBytes(|p|) + p);
    StandsFrom(c.s, m.at, [0x66]);
    BytesRead(c.s, m.at + 1, p);
  }

  lemma BigReads(c: Config, m: Memory, key: bool, depth: nat, negative: bool, v: nat)
    requires LimbCount(v) < 0x1_0000_0000 && Stands(c.s, m.at, BignumBytes(negative, v)) && depth < MAX_DEPTH
    ensures var sp := Whole(negative, v, true);
      ReadsAs(Value(c, m, key, true, depth, false), m, |BignumBytes(negative, v)|, SpellingItem(c.host, key, sp), sp)
  {
    hide LongBytes, ReadLimbs, IntegerItem, LimbCount, ToLittleEndian, BignumBytes, TakeLong, CborHeads.FloatBytes;
    var u := |BignumBytes(negative, v)|;
    LimbsStand(c.s, m.at, negative, v);
    assert Registers(0x6C) && SlotKind(c.s, m.at) == 0x6C;
  }

  /** The sign byte and the limbs behind it, as the reader takes them. */
  lemma LimbsStand(s: seq<byte>, at: nat, negative: bool, v: nat)
    requires LimbCount(v) < 0x1_0000_0000 && Stands(s, at, BignumBytes(negative, v))
    ensures at + 2 <= |s| && s[at] == 0x6C && s[at + 1] == (if negative then 0x2D else 0x2B)
    ensures ReadLimbs(s[at + 2..], negative)
         == (if v < TWO_64 then Integer(Sign(negative, v), |BignumBytes(negative, v)| - 2) else Integer.Refused)
  {
    hide LongBytes, ReadLimbs, LimbCount, ToLittleEndian;
    var n := LimbCount(v);
    var digits := ToLittleEndian(v, 2 * n);
    var sign := if negative then 0x2D else 0x2B;
    assert BignumBytes(negative, v) == [0x6C, sign] + (LongBytes(n) + digits);
    StandsSplit(s, at, [0x6C, sign], LongBytes(n) + digits);
    StandsFrom(s, at, [0x6C, sign]);
    assert s[at..at + 2][1] == s[at + 1];
    StandsFrom(s, at + 2, LongBytes(n) + digits);
    var rest := s[at + 2 + |LongBytes(n) + digits|..];
    assert s[at + 2..] == LongBytes(n) + (digits + rest);
    ReadLimbsBack(negative, v, n, rest);
    FourLimbs(v);
  }

  /** A scalar the writer spelt is read as its item, or declined. */
  lemma ScalarReads(c: Config, m: Memory, key: bool, depth: nat, sp: Spelling)
    requires Spellable(sp) && Stands(c.s, m.at, SpellingBytes(sp)) && depth < MAX_DEPTH
    ensures ReadsAs(Value(c, m, key, true, depth, false), m, |SpellingBytes(sp)|, SpellingItem(c.host, key, sp), sp)
  {
    hide Value, LongBytes, IntegerItem, FloatItem, StringItem, SymbolItem, BignumBytes;
    StandsFrom(c.s, m.at, SpellingBytes(sp));
    match sp
    case NullWord => WordReads(c, m, key, depth, 0x30);
    case Truth(b) => WordReads(c, m, key, depth, if b then 0x54 else 0x46);
    case Whole(negative, v, big) =>
      if big { BigReads(c, m, key, depth, negative, v); } else { SmallReads(c, m, key, depth, Sign(negative, v)); }
    case FloatWord(repr) => FloatReads(c, m, key, depth, repr);
    case Text(p) => StringReads(c, m, key, depth, p);
    case Symbol(p) => SymbolReads(c, m, key, depth, p);
  }

  // ---- the nodes of the expanded tree ---------------------------------------------------

  type Node = CborEncode.Node

  /** Text that is no UTF-8 can only be a key; a key the resolver takes for something else cannot be one. */
  function TextNode(host: Host, key: bool, p: Span): Option<Node> {
    if (if Utf8.Valid(p) then key && host.typed(p) else !key) then None
    else Some(CborEncode.Scalar([], CborRead.TAG_STR, p))
  }

  function WholeNode(host: Host, x: int): Option<Node> {
    if INT64_MIN <= x < -INT64_MIN then Some(CborEncode.Scalar([], CborRead.TAG_INT, SignedDecimal(x < 0, Magnitude(x))))
    else if Magnitude(x) < TWO_64 then Some(CborEncode.FloatNode([], host.rounded(x)))
    else None
  }

  /** The document node a scalar stands for. */
  function NodeOf(host: Host, key: bool, sp: Spelling): Option<Node> {
    match sp
    case NullWord => if key then None else Some(CborEncode.Scalar([], CborRead.TAG_NULL, Ascii("null")))
    case Truth(b) =>
      if key then None
      else Some(CborEncode.Scalar([], CborRead.TAG_BOOL, if b then Ascii("true") else Ascii("false")))
    case Whole(negative, v, _) => WholeNode(host, Sign(negative, v))
    case FloatWord(p) =>
      if |p| >= 64 || p in [NAN, INF, MINUS_INF] || host.double(p).None? then None
      else Some(CborEncode.FloatNode([], host.double(p).value))
    case Text(p) => TextNode(host, key, p)
    case Symbol(p) => Some(CborEncode.Scalar([], CborRead.TAG_STR, [0x3A] + p))
  }

  /** n encodes as b, in key order as well when it is a key. */
  predicate Encodes(n: Node, key: bool, b: seq<byte>) {
    && CborEncode.Encodable(n)
    && CborEncode.ItemBytes(n, true) == b && CborEncode.ItemBytes(n, false) == b
    && (key ==> CborEncode.KeyOk(n) && CborEncode.KeyBytes(n) == b)
  }

  lemma UntaggedScalar(n: Node)
    requires (n.Scalar? || n.FloatNode?) && n.tag == [] && CborEncode.Storable(n) && CborEncode.Supported(n)
    ensures CborEncode.ItemBytes(n, true) == CborEncode.ScalarBytes(n) == CborEncode.ItemBytes(n, false)
    ensures CborCanonical.SortsAsWritten(n) ==> CborEncode.KeyOk(n) && CborEncode.KeyBytes(n) == CborEncode.ScalarBytes(n)
  {
    hide CborHeads.IntScan, CborHeads.TextBytes, CborHeads.FloatBytes, CborHeads.IntBytes;
    assert CborEncode.Tags(n) == [];
    if CborCanonical.SortsAsWritten(n) { CborCanonical.KeyAsWritten(n); }
  }

  lemma TextEncodes(host: Host, key: bool, p: Span)
    ensures match TextNode(host, key, p)
      case None => StringItem(host, key, p, Utf8Text).None?
      case Some(n) => StringItem(host, key, p, Utf8Text).Some? && Encodes(n, key, StringItem(host, key, p, Utf8Text).value)
  {
    hide CborHeads.SimpleOf, Utf8.Valid, CborHeads.HeadBytes;
    if AsciiOnly(p) { Utf8.AsciiValid(p); }
    if CborHeads.SimpleOf(p).Some? { CborHeads.WordIsText(p); }
    EmptyValid();
    var n := CborEncode.Scalar([], CborRead.TAG_STR, p);
    UntaggedScalar(n);
  }

  lemma EmptyValid()
    ensures Utf8.Valid([])
  {
  }

  lemma ColonValid(p: seq<byte>)
    ensures Utf8.Valid([0x3A] + p) <==> Utf8.Valid(p)
  {
    var s := [0x3A] + p;
    assert s[1..] == p;
    assert Utf8.Character(s) == 1;
  }

  lemma SymbolEncodes(host: Host, key: bool, p: Span)
    ensures Encodes(CborEncode.Scalar([], CborRead.TAG_STR, [0x3A] + p), key, SymbolItem(p))
  {
    hide CborHeads.SimpleOf, Utf8.Valid, CborHeads.HeadBytes, SymbolItem, CborHeads.StringItem;
    SymbolIsText(p);
    UntaggedScalar(CborEncode.Scalar([], CborRead.TAG_STR, [0x3A] + p));
  }

  lemma SymbolIsText(p: Span)
    ensures CborHeads.TextBytes(false, [0x3A] + p) == SymbolItem(p)
  {
    hide CborHeads.SimpleOf, Utf8.Valid, CborHeads.HeadBytes;
    ColonValid(p);
    EmptyValid();
    ColonNoWord(p);
    var h := CborHeads.HeadBytes(if Utf8.Valid(p) then 3 else 2, |p| + 1);
    assert h + ([0x3A] + p) == h + [0x3A] + p;
  }

  lemma ColonNoWord(p: seq<byte>)
    ensures CborHeads.SimpleOf([0x3A] + p).None?
  {
    var v := [0x3A] + p;
    assert v[0] == 0x3A;
    if |v| > 9 { assert v[..7][0] == 0x3A; }
  }

  lemma DecimalScans(x: int)
    requires INT64_MIN <= x < -INT64_MIN
    ensures CborHeads.IntScan(SignedDecimal(x < 0, Magnitude(x))) == Some(x)
  {
    var mag := Magnitude(x);
    var v := SignedDecimal(x < 0, mag);
    DecimalRoundTrip(mag);
    Uint64Digits(mag);
    if x < 0 { assert v[1..] == Decimal(mag); }
    ShortZero(mag);
  }

  lemma ShortZero(v: nat)
    ensures v == 0 ==> |Decimal(v)| == 1
    ensures Decimal(v)[0] != 0x2D
  {
    assert IsDigit(Decimal(v)[0]);
  }

  lemma WholeEncodes(host: Host, key: bool, x: int)
    ensures match WholeNode(host, x)
      case None => Magnitude(x) >= TWO_64
      case Some(n) => Encodes(n, key, IntegerItem(host, x)) && Magnitude(x) < TWO_64
  {
    hide CborHeads.IntScan, Decimal, CborHeads.FloatBytes;
    if INT64_MIN <= x < -INT64_MIN { DecimalScans(x); Uint64Digits(Magnitude(x)); }
    if WholeNode(host, x).Some? { UntaggedScalar(WholeNode(host, x).value); }
  }

  lemma WordEncodes(n: Node, b: byte)
    requires || (n == CborEncode.Scalar([], CborRead.TAG_NULL, Ascii("null")) && b == 0xF6)
             || (n == CborEncode.Scalar([], CborRead.TAG_BOOL, Ascii("true")) && b == 0xF5)
             || (n == CborEncode.Scalar([], CborRead.TAG_BOOL, Ascii("false")) && b == 0xF4)
    ensures Encodes(n, false, [b])
  {
    UntaggedScalar(n);
    assert Ascii("true")[0] == 't' as int && Ascii("false")[0] == 'f' as int;
  }

  /** A scalar's item is the encoding of its node; where it has no node it is declined, or no key to begin with. */
  lemma ScalarEncodes(host: Host, key: bool, sp: Spelling)
    requires Spellable(sp)
    ensures match NodeOf(host, key, sp)
      case None => SpellingItem(host, key, sp).None? || (key && (sp.NullWord? || sp.Truth?))
      case Some(n) =>
        && SpellingItem(host, key, sp).Some? && Encodes(n, key, SpellingItem(host, key, sp).value)
        && !(key && (sp.NullWord? || sp.Truth?))
  {
    hide TextNode, WholeNode, StringItem, IntegerItem, SymbolItem, CborHeads.FloatBytes, Encodes;
    match sp
    case NullWord => WordEncodes(CborEncode.Scalar([], CborRead.TAG_NULL, Ascii("null")), 0xF6);
    case Truth(b) => WordEncodes(CborEncode.Scalar([], CborRead.TAG_BOOL, if b then Ascii("true") else Ascii("false")), if b then 0xF5 else 0xF4);
    case Whole(negative, v, _) => WholeEncodes(host, key, Sign(negative, v));
    case FloatWord(p) => if NodeOf(host, key, sp).Some? { FloatEncodes(key, host.double(p).value); }
    case Text(p) => TextEncodes(host, key, p);
    case Symbol(p) => SymbolEncodes(host, key, p);
  }

  lemma FloatEncodes(key: bool, bits: Pattern)
    ensures Encodes(CborEncode.FloatNode([], bits), key, CborHeads.FloatBytes(bits))
  {
    hide CborHeads.FloatBytes;
    UntaggedScalar(CborEncode.FloatNode([], bits));
  }
}
