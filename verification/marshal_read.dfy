/** The Marshal reader of the CBOR face: one Marshal 4.8 value walked once, its CBOR item as the result. */
module MarshalRead {
  import opened Wrappers
  import opened Bytes
  import opened MarshalNumber
  import CborHeads
  import CborEncode
  import Utf8

  type Span = s: seq<byte> | |s| < 0x1_0000_0000
  type Pattern = b: nat | b < TWO_64

  const MAX_DEPTH: nat := 512

  /**
   * The kernels the reader calls: the compat-1.1 resolver's verdict on a key text (true for an integer, float,
   * boolean or null), the double a finite float text denotes, and the double an integer past int64 rounds to.
   */
  datatype Host = Host(typed: Span -> bool, double: Span -> Option<Pattern>, rounded: int -> Pattern)

  /** What one walk is given. */
  datatype Config = Config(s: seq<byte>, canonical: bool, host: Host)

  datatype Encoding = Binary | Utf8Text | UsAscii | Named
  datatype Payload = Payload(bytes: Span, enc: Encoding)

  /** One link slot: the lead byte, a string's payload, the bytes emitted once the construct is complete. */
  datatype Memo = Memo(kind: byte, str: Option<Payload>, span: Option<seq<byte>>)
  datatype Memory = Memory(at: nat, syms: seq<Span>, objs: seq<Memo>)
  datatype Item = Item(bytes: seq<byte>, m: Memory) | Declined

  // ---- text -----------------------------------------------------------------------

  predicate AsciiOnly(p: seq<byte>) { forall i :: 0 <= i < |p| ==> p[i] < 0x80 }

  /** cm_text. */
  function TextItem(p: Span): Option<seq<byte>> {
    match CborHeads.SimpleOf(p)
    case Some(n) => Some(CborHeads.SimpleBytes(n))
    case None => if p != [] && !Utf8.Valid(p) then None else Some(CborHeads.HeadBytes(3, |p|) + p)
  }

  /** cm_key_bytes. */
  function KeyItem(host: Host, p: Span): Option<seq<byte>> {
    if p != [] && !Utf8.Valid(p) then Some(CborHeads.HeadBytes(2, |p|) + p)
    else if host.typed(p) then None
    else TextItem(p)
  }

  /** cm_value_bytes. */
  function ValueItem(p: Span, enc: Encoding): Option<seq<byte>> {
    match enc
    case Utf8Text => if !AsciiOnly(p) && !Utf8.Valid(p) then None else TextItem(p)
    case Binary | UsAscii => if !AsciiOnly(p) then None else TextItem(p)
    case Named => None
  }

  function StringItem(host: Host, inKey: bool, p: Span, enc: Encoding): Option<seq<byte>> {
    if inKey then KeyItem(host, p) else ValueItem(p, enc)
  }

  /** cm_symbol_text. */
  function SymbolItem(p: Span): seq<byte> {
    CborHeads.HeadBytes(if p == [] || Utf8.Valid(p) then 3 else 2, |p| + 1) + [0x3A] + p
  }

  /** An integer, or the float an integer past int64 becomes. */
  function IntegerItem(host: Host, x: int): seq<byte> {
    if INT64_MIN <= x < -INT64_MIN then CborHeads.IntBytes(x) else CborHeads.FloatBytes(host.rounded(x))
  }

  /** cm_emit_memo into a buffer. */
  function LinkItem(host: Host, inKey: bool, o: Memo): Option<seq<byte>> {
    match o.str
    case Some(p) => StringItem(host, inKey, p.bytes, p.enc)
    case None =>
      if o.kind == 0x5B || o.kind == 0x7B || o.span == Some([]) then None else o.span
  }

  // ---- the stream --------------------------------------------------------------------

  datatype Taken = Taken(x: int, next: nat) | Cut
  datatype Cutting = Cutting(bytes: Span, next: nat) | TooShort

  lemma LongIsSmall(s: seq<byte>)
    ensures ReadLong(s).Long? ==> ReadLong(s).x < 0x1_0000_0000
  {
    if s != [] && 1 <= s[0] <= 4 && |s| > s[0] {
      Powers();
      Power256Mono(s[0], 4);
      assert LittleEndian(s[1..1 + s[0]]) < Power256(s[0]);
    } else if s != [] && s[0] > 250 && |s| > 256 - s[0] {
      assert LittleEndian(s[1..1 + (256 - s[0])]) < Power256(256 - s[0]);
    }
  }

  /** cm_long at a position. */
  function TakeLong(s: seq<byte>, at: nat): (t: Taken)
    requires at <= |s|
    ensures t.Taken? ==> at < t.next <= |s| && t.x < 0x1_0000_0000
  {
    LongIsSmall(s[at..]);
    match ReadLong(s[at..])
    case Long(x, u) => Taken(x, at + u)
    case _ => Cut
  }

  /** A long, then that many bytes. */
  function TakeBytes(s: seq<byte>, at: nat): (t: Cutting)
    requires at <= |s|
    ensures t.Cutting? ==> at < t.next <= |s|
  {
    match TakeLong(s, at)
    case Cut => TooShort
    case Taken(n, k) => if n < 0 || n > |s| - k then TooShort else Cutting(s[k..k + n], k + n)
  }

  // ---- maps ------------------------------------------------------------------------------

  datatype Rows = Rows(keys: seq<seq<byte>>, pairs: seq<seq<byte>>, m: Memory) | NoRows

  /** cm_key_lead_ok. */
  predicate KeyLead(t: byte) {
    t == 0x22 || t == 0x49 || t == 0x3A || t == 0x3B || t == 0x40 || t == 0x69 || t == 0x6C || t == 0x66
  }

  predicate Twice(keys: seq<seq<byte>>) {
    exists i, j :: 0 <= j < i < |keys| && keys[i] == keys[j]
  }

  function InOrder(pairs: seq<seq<byte>>, order: seq<nat>): seq<byte>
    requires CborEncode.Indices(order, |pairs|)
  {
    if order == [] then []
    else InOrder(pairs, order[..|order| - 1]) + pairs[order[|order| - 1]]
  }

  /** The pairs of one map behind its head, in canonical or in stream order. */
  function TableItem(keys: seq<seq<byte>>, pairs: seq<seq<byte>>, canonical: bool): seq<byte>
    requires |keys| == |pairs| < TWO_64
  {
    var order := if canonical then CborEncode.OrderOf(keys, |keys|) else CborEncode.Iota(|pairs|);
    CborHeads.HeadBytes(5, |pairs|) + InOrder(pairs, order)
  }

  // ---- values ------------------------------------------------------------------------------

  predicate Registers(t: byte) {
    t == 0x5B || t == 0x7B || t == 0x22 || t == 0x66 || t == 0x6C || t == 0x49
  }

  /** An 'I' wrapper is transparent: the slot has the kind of what it wraps. */
  function SlotKind(s: seq<byte>, at: nat): byte
    requires at < |s|
  {
    if s[at] != 0x49 then s[at] else if at + 1 < |s| then s[at + 1] else 0
  }

  /** Past the lead byte, the construct's slot taken. */
  function Begin(s: seq<byte>, m: Memory, reg: bool): Memory
    requires m.at < |s|
  {
    m.(at := m.at + 1, objs := if reg then m.objs + [Memo(SlotKind(s, m.at), None, None)] else m.objs)
  }

  /** The construct's bytes are out. */
  function Finish(r: Item, slot: nat, close: bool): Item {
    if r.Item? && close && slot < |r.m.objs| then
      Item(r.bytes, r.m.(objs := r.m.objs[slot := r.m.objs[slot].(span := Some(r.bytes))]))
    else r
  }

  /** A string's payload goes into its slot. */
  function Noted(m: Memory, slot: Option<nat>, p: Payload): Memory {
    match slot
    case Some(k) => if k < |m.objs| then m.(objs := m.objs[k := m.objs[k].(str := Some(p))]) else m
    case None => m
  }

  function Out(emit: bool, bytes: Option<seq<byte>>, m: Memory): Item {
    if !emit then Item([], m)
    else match bytes
         case Some(b) => Item(b, m)
         case None => Declined
  }

  /** cm_value. */
  function Value(c: Config, m: Memory, inKey: bool, emit: bool, depth: nat, noReg: bool): (r: Item)
    requires m.at <= |c.s|
    ensures r.Item? ==> m.at < r.m.at <= |c.s| && |m.objs| <= |r.m.objs|
    decreases |c.s| - m.at, 1
  {
    if depth >= MAX_DEPTH || m.at >= |c.s| then Declined
    else
      var reg := !noReg && Registers(c.s[m.at]);
      var slot := if reg then Some(|m.objs|) else None;
      var r := Construct(c, Begin(c.s, m, reg), c.s[m.at], slot, inKey, emit, depth);
      Finish(r, |m.objs|, reg && emit)
  }

  /** The arms that take no further values. */
  function Atom(c: Config, m: Memory, t: byte, slot: Option<nat>, inKey: bool, emit: bool): (r: Item)
    requires m.at <= |c.s|
    ensures r.Item? ==> m.at <= r.m.at <= |c.s| && |m.objs| <= |r.m.objs|
  {
    if t == 0x30 then Out(emit, Some([0xF6]), m)
    else if t == 0x54 then Out(emit, Some([0xF5]), m)
    else if t == 0x46 then Out(emit, Some([0xF4]), m)
    else if t == 0x69 then
      match TakeLong(c.s, m.at)
      case Taken(x, k) => Out(emit, Some(IntegerItem(c.host, x)), m.(at := k))
      case Cut => Declined
    else if t == 0x6C then Big(c, m, emit)
    else if t == 0x66 then
      match TakeBytes(c.s, m.at)
      case Cutting(p, k) => Out(emit, FloatItem(c.host, p), m.(at := k))
      case TooShort => Declined
    else if t == 0x22 then
      match TakeBytes(c.s, m.at)
      case Cutting(p, k) =>
        Out(emit, StringItem(c.host, inKey, p, Binary), Noted(m.(at := k), slot, Payload(p, Binary)))
      case TooShort => Declined
    else if t == 0x3A then
      match TakeBytes(c.s, m.at)
      case Cutting(p, k) => Out(emit, Some(SymbolItem(p)), m.(at := k, syms := m.syms + [p]))
      case TooShort => Declined
    else Reference(c, m, t, inKey, emit)
  }

  function Reference(c: Config, m: Memory, t: byte, inKey: bool, emit: bool): (r: Item)
    requires m.at <= |c.s|
    ensures r.Item? ==> m.at <= r.m.at <= |c.s| && |m.objs| <= |r.m.objs|
  {
    match TakeLong(c.s, m.at)
    case Cut => Declined
    case Taken(x, k) =>
      if x < 0 then Declined
      else if t == 0x3B then
        if x >= |m.syms| then Declined else Out(emit, Some(SymbolItem(m.syms[x])), m.(at := k))
      else if t != 0x40 || x >= |m.objs| then Declined
      else Out(emit, LinkItem(c.host, inKey, m.objs[x]), m.(at := k))
  }

  /** The 'l' arm: at most four limbs. */
  function Big(c: Config, m: Memory, emit: bool): (r: Item)
    requires m.at <= |c.s|
    ensures r.Item? ==> m.at <= r.m.at <= |c.s| && |m.objs| <= |r.m.objs|
  {
    if m.at >= |c.s| || (c.s[m.at] != 0x2B && c.s[m.at] != 0x2D) then Declined
    else
      match ReadLimbs(c.s[m.at + 1..], c.s[m.at] == 0x2D)
      case Integer(x, u) => Out(emit, Some(IntegerItem(c.host, x)), m.(at := m.at + 1 + u))
      case Refused => Declined
  }

  /** The 'f' arm: 63 characters at most, and neither spelt nor rounded to a non-finite. */
  function FloatItem(host: Host, p: Span): Option<seq<byte>> {
    if |p| >= 64 || p in [NAN, INF, MINUS_INF] then None
    else
      match host.double(p)
      case Some(bits) => Some(CborHeads.FloatBytes(bits))
      case None => None
  }

  const NAN: seq<byte> := [0x6E, 0x61, 0x6E]
  const INF: seq<byte> := [0x69, 0x6E, 0x66]
  const MINUS_INF: seq<byte> := [0x2D, 0x69, 0x6E, 0x66]

  /** The switch of cm_value, behind the lead byte. */
  function Construct(c: Config, m: Memory, t: byte, slot: Option<nat>, inKey: bool, emit: bool, depth: nat): (r: Item)
    requires m.at <= |c.s|
    ensures r.Item? ==> m.at <= r.m.at <= |c.s| && |m.objs| <= |r.m.objs|
    decreases |c.s| - m.at, 4
  {
    if t == 0x49 then
      if m.at < |c.s| && c.s[m.at] == 0x22 then Wrapped(c, m, slot, inKey, emit, depth)
      else if inKey then Declined
      else
        match Value(c, m, inKey, emit, depth, true)
        case Declined => Declined
        case Item(bytes, m1) =>
          match IvarPairs(c, m1, inKey, depth)
          case Ivars(_, m2) => Item(bytes, m2)
          case NoIvars => Declined
    else if t == 0x5B || t == 0x7B then
      match TakeLong(c.s, m.at)
      case Cut => Declined
      case Taken(n, k) =>
        if n < 0 then Declined
        else if t == 0x5B then
          match Elements(c, m.(at := k), n, inKey, emit, depth + 1)
          case Declined => Declined
          case Item(bytes, m1) => Item((if emit then CborHeads.HeadBytes(4, n) else []) + bytes, m1)
        else
          match TableOf(c, m.(at := k), n, inKey, emit, depth + 1)
          case NoRows => Declined
          case Rows(keys, pairs, m1) =>
            if !emit then Item([], m1)
            else if |keys| != |pairs| || |keys| >= TWO_64 || Twice(keys) then Declined
            else Item(TableItem(keys, pairs, c.canonical), m1)
    else Atom(c, m, t, slot, inKey, emit)
  }

  /** cm_wrapped_string. */
  function Wrapped(c: Config, m: Memory, slot: Option<nat>, inKey: bool, emit: bool, depth: nat): (r: Item)
    requires m.at < |c.s|
    ensures r.Item? ==> m.at <= r.m.at <= |c.s| && |m.objs| <= |r.m.objs|
    decreases |c.s| - m.at, 3
  {
    match TakeBytes(c.s, m.at + 1)
    case TooShort => Declined
    case Cutting(p, k) =>
      match IvarPairs(c, m.(at := k), inKey, depth)
      case NoIvars => Declined
      case Ivars(enc, m1) => Out(emit, StringItem(c.host, inKey, p, enc), Noted(m1, slot, Payload(p, enc)))
  }

  datatype Ivars = Ivars(enc: Encoding, m: Memory) | NoIvars

  /** cm_ivar_pairs: the count, then the names and values. */
  function IvarPairs(c: Config, m: Memory, inKey: bool, depth: nat): (r: Ivars)
    requires m.at <= |c.s|
    ensures r.Ivars? ==> m.at < r.m.at <= |c.s| && |m.objs| <= |r.m.objs|
    decreases |c.s| - m.at, 2
  {
    match TakeLong(c.s, m.at)
    case Cut => NoIvars
    case Taken(n, k) => if n < 0 then NoIvars else IvarList(c, m.(at := k), n, Binary, inKey, depth)
  }

  datatype Name = Name(text: Span, m: Memory) | NoName

  /** An ivar's name: a symbol, or a link to one. */
  function IvarName(c: Config, m: Memory): (r: Name)
    requires m.at <= |c.s|
    ensures r.Name? ==> m.at < r.m.at <= |c.s| && |m.objs| <= |r.m.objs|
  {
    if m.at >= |c.s| then NoName
    else if c.s[m.at] == 0x3A then
      match TakeBytes(c.s, m.at + 1)
      case TooShort => NoName
      case Cutting(p, k) => Name(p, m.(at := k, syms := m.syms + [p]))
    else if c.s[m.at] == 0x3B then
      match TakeLong(c.s, m.at + 1)
      case Cut => NoName
      case Taken(x, k) => if x < 0 || x >= |m.syms| then NoName else Name(m.syms[x], m.(at := k))
    else NoName
  }

  const ENCODING_NAME: seq<byte> := [0x65, 0x6E, 0x63, 0x6F, 0x64, 0x69, 0x6E, 0x67]

  /** The encoding after one ivar: t is the lead byte of its value. */
  function EncodingAfter(enc: Encoding, name: Span, t: byte): Encoding {
    if name == ENCODING_NAME then Named
    else if name != [0x45] then enc
    else if t == 0x54 then Utf8Text
    else if t == 0x46 then UsAscii
    else Named
  }

  function IvarList(c: Config, m: Memory, n: nat, enc: Encoding, inKey: bool, depth: nat): (r: Ivars)
    requires m.at <= |c.s|
    ensures r.Ivars? ==> m.at <= r.m.at <= |c.s| && |m.objs| <= |r.m.objs|
    decreases |c.s| - m.at, 2
  {
    if n == 0 then Ivars(enc, m)
    else
      match IvarName(c, m)
      case NoName => NoIvars
      case Name(name, m1) =>
        if m1.at >= |c.s| then NoIvars
        else
          match Value(c, m1, inKey, false, depth, false)
          case Declined => NoIvars
          case Item(_, m2) => IvarList(c, m2, n - 1, EncodingAfter(enc, name, c.s[m1.at]), inKey, depth)
  }

  /** n values. */
  function Elements(c: Config, m: Memory, n: nat, inKey: bool, emit: bool, depth: nat): (r: Item)
    requires m.at <= |c.s|
    ensures r.Item? ==> m.at <= r.m.at <= |c.s| && |m.objs| <= |r.m.objs|
    decreases |c.s| - m.at, 2
  {
    if n == 0 then Item([], m)
    else
      match Value(c, m, inKey, emit, depth, false)
      case Declined => Declined
      case Item(b, m1) => After(b, Elements(c, m1, n - 1, inKey, emit, depth))
  }

  function After(bytes: seq<byte>, r: Item): Item {
    match r
    case Item(b, m) => Item(bytes + b, m)
    case Declined => Declined
  }

  /** n pairs. */
  function TableOf(c: Config, m: Memory, n: nat, inKey: bool, emit: bool, depth: nat): (r: Rows)
    requires m.at <= |c.s|
    ensures r.Rows? ==> m.at <= r.m.at <= |c.s| && |m.objs| <= |r.m.objs|
    ensures r.Rows? ==> |r.keys| == |r.pairs| == n
    decreases |c.s| - m.at, 2
  {
    if n == 0 then Rows([], [], m)
    else if m.at >= |c.s| || (emit && !KeyLead(c.s[m.at])) then NoRows
    else
      match Value(c, m, true, emit, depth, false)
      case Declined => NoRows
      case Item(k, m1) =>
        match Value(c, m1, inKey, emit, depth, false)
        case Declined => NoRows
        case Item(v, m2) => Behind(k, k + v, TableOf(c, m2, n - 1, inKey, emit, depth))
  }

  function Behind(key: seq<byte>, pair: seq<byte>, t: Rows): Rows {
    match t
    case Rows(keys, pairs, m) => Rows([key] + keys, [pair] + pairs, m)
    case NoRows => NoRows
  }

  /** yeptris_cbor_from_marshal. */
  function FromMarshal(s: seq<byte>, canonical: bool, host: Host): Option<seq<byte>> {
    if |s| < 2 || s[..2] != [0x04, 0x08] then None
    else
      match Value(Config(s, canonical, host), Memory(2, [], []), false, true, 0, false)
      case Declined => None
      case Item(bytes, m) => if m.at == |s| then Some(bytes) else None
  }
}
