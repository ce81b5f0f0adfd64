/**
 * Reading CBOR: what one head says, and the recursive reading of section 3 of RFC 8949
 * that the decoder's frame loop must agree with.
 */
module CborRead {
  import opened Bytes
  import Utf8

  const MAX_DEPTH: nat := 1000
  const TAG_MAX_LINKS: nat := 64
  const TAGBUF: nat := 1408

  /** Resolved tag ids of rendered text. */
  const TAG_STR: nat := 0
  const TAG_INT: nat := 1
  const TAG_FLOAT: nat := 2
  const TAG_BOOL: nat := 3
  const TAG_NULL: nat := 4

  datatype Status = Parse | Encoding | Depth | TagBeforeBreak

  /** The double a float item or an integer beyond int64 denotes, by its wire form. */
  datatype Number = Half(h: nat) | Single(w: nat) | Double(d: nat) | Beyond(negative: bool, arg: nat)

  /** One call on the sink. Tag chains arrive as text, outermost link first. */
  datatype Event =
    | Text(text: seq<byte>, tagId: nat, isKey: bool, tag: seq<byte>)
    | Int(negative: bool, mag: nat, isKey: bool, tag: seq<byte>)
    | Float(number: Number, isKey: bool, tag: seq<byte>)
    | Str(bytes: seq<byte>, borrowed: bool, isKey: bool, tag: seq<byte>)
    | ByteStr(bytes: seq<byte>, borrowed: bool, isKey: bool, tag: seq<byte>)
    | Open(isMap: bool, cap: Remaining, tag: seq<byte>)
    | Close(isMap: bool)

  /** Items a container still expects; the decoder's UINT64_MAX sentinel is UntilBreak. */
  datatype Remaining = Items(n: nat) | UntilBreak

  datatype Frame = Frame(rem: Remaining, consumed: nat, isMap: bool) {
    /** The frame once one more item has landed in it. */
    function Next(): Frame
      requires rem.Items? ==> rem.n > 0
    {
      Frame(if rem.Items? then Items(rem.n - 1) else UntilBreak, consumed + 1, isMap)
    }

    /** Even items of a map are keys. */
    predicate KeySlot() { isMap && consumed % 2 == 0 }

    /** A break byte here would close the frame. */
    predicate Breakable() { rem.UntilBreak? && !(isMap && consumed % 2 == 1) }
  }

  // ---- tag chains ------------------------------------------------------------

  /** "2 55799": decimal links, single spaces, outermost first. */
  function ChainText(chain: seq<nat>): seq<byte> {
    if chain == [] then []
    else if |chain| == 1 then Decimal(chain[0])
    else ChainText(chain[..|chain| - 1]) + [0x20] + Decimal(chain[|chain| - 1])
  }

  // ---- heads --------------------------------------------------------------------

  datatype Arg = ArgOk(val: nat, next: nat) | ArgBad

  /** Bytes that follow the initial byte for additional information 24..27. */
  function ArgWidth(ai: nat): (n: nat)
    requires 24 <= ai < 28
    ensures n <= 8
  {
    if ai == 24 then 1 else if ai == 25 then 2 else if ai == 26 then 4 else 8
  }

  /** The smallest argument that needs that many bytes. */
  function ArgMinimum(ai: nat): nat
    requires 24 <= ai < 28
  {
    if ai == 24 then 24 else if ai == 25 then 0x100 else if ai == 26 then 0x1_0000 else 0x1_0000_0000
  }

  function ReadArg(p: seq<byte>, i: nat, ai: nat, strict: bool): (a: Arg)
    requires i <= |p|
    ensures a.ArgOk? ==> i <= a.next <= |p|
  {
    if ai >= 28 then ArgBad
    else if ai < 24 then ArgOk(ai, i)
    else
      var n := ArgWidth(ai);
      if |p| - i < n then ArgBad
      else
        var v := BigEndian(p[i..i + n]);
        if strict && v < ArgMinimum(ai) then ArgBad else ArgOk(v, i + n)
  }

  /** One step of an indefinite-length string: its break, a chunk at [start, start + len), or an error. */
  datatype Chunk = Break | Data(start: nat, len: nat) | BadChunk(status: Status)

  function ReadChunk(p: seq<byte>, i: nat, isText: bool, strict: bool): (c: Chunk)
    requires i <= |p|
    ensures c.Break? ==> i < |p|
    ensures c.Data? ==> i < c.start <= c.start + c.len <= |p|
    ensures c.BadChunk? ==> c.status != TagBeforeBreak
  {
    if i >= |p| then BadChunk(Parse)
    else if p[i] == 0xFF then Break
    else if p[i] / 32 != (if isText then 3 else 2) || p[i] % 32 == 31 then BadChunk(Parse)
    else
      match ReadArg(p, i + 1, p[i] % 32, strict)
      case ArgBad => BadChunk(Parse)
      case ArgOk(n, j) =>
        if n > |p| - j then BadChunk(Parse)
        else if isText && !Utf8.Valid(p[j..j + n]) then BadChunk(Encoding)
        else Data(j, n)
  }

  datatype Chunks = ChunksOk(bytes: seq<byte>, next: nat) | ChunksBad(status: Status)

  /** The chunks of an indefinite-length string, up to its break. */
  function ReadChunks(p: seq<byte>, i: nat, isText: bool, strict: bool): (c: Chunks)
    requires i <= |p|
    ensures c.ChunksOk? ==> i < c.next <= |p|
    ensures c.ChunksBad? ==> c.status != TagBeforeBreak
    decreases |p| - i
  {
    match ReadChunk(p, i, isText, strict)
    case BadChunk(s) => ChunksBad(s)
    case Break => ChunksOk([], i + 1)
    case Data(j, n) =>
      match ReadChunks(p, j + n, isText, strict)
      case ChunksBad(s) => ChunksBad(s)
      case ChunksOk(rest, k) => ChunksOk(p[j..j + n] + rest, k)
  }

  /** What one head at position i amounts to. */
  datatype Head =
    | Leaf(event: Event, next: nat)
    | Begin(isMap: bool, rem: Remaining, tag: seq<byte>, next: nat)
    | Tag(link: nat, next: nat)
    | Reject(status: Status)

  function Hex(b: byte): (s: seq<byte>)
    ensures |s| == 2
  {
    [HexDigit(b / 16), HexDigit(b % 16)]
  }

  function HexDigit(d: nat): byte
    requires d < 16
  {
    if d < 10 then 0x30 + d else 0x61 + (d - 10)
  }

  function HexText(s: seq<byte>): seq<byte> {
    if s == [] then [] else HexText(s[..|s| - 1]) + Hex(s[|s| - 1])
  }

  /** A byte-string key as diagnostic text; the 48-byte buffer holds at most 22 bytes of it. */
  function HexKey(s: seq<byte>): seq<byte> {
    Ascii("h'") + HexText(if |s| > 22 then s[..22] else s) + Ascii("'")
  }

  /** "simple(N)". */
  function SimpleText(n: nat): seq<byte> {
    Ascii("simple(") + Decimal(n) + Ascii(")")
  }

  /** Text and tag id a simple value renders as. A key never resolves: it stays a string. */
  function SimpleEvent(v: nat, key: bool, tag: seq<byte>): Event {
    if v == 20 then Text(Ascii("false"), if key then TAG_STR else TAG_BOOL, key, tag)
    else if v == 21 then Text(Ascii("true"), if key then TAG_STR else TAG_BOOL, key, tag)
    else if v == 22 then Text(Ascii("null"), if key then TAG_STR else TAG_NULL, key, tag)
    else if v == 23 then Text(Ascii("undefined"), TAG_STR, key, tag)
    else Text(SimpleText(v), TAG_STR, key, tag)
  }

  function IndefEvent(isText: bool, s: seq<byte>, tag: seq<byte>): Event {
    if isText then Str(s, false, false, tag) else ByteStr(s, false, false, tag)
  }

  function FloatHead(n: Number, key: bool, strict: bool, tag: seq<byte>, next: nat): Head {
    if key && strict then Reject(Parse) else Leaf(Float(n, key, tag), next)
  }

  /** Major type 7; i is past the initial byte. */
  function SimpleHead(p: seq<byte>, i: nat, ai: nat, key: bool, strict: bool, tag: seq<byte>): (h: Head)
    requires i <= |p| && ai < 31
    ensures h.Leaf? ==> i <= h.next <= |p|
    ensures !h.Begin? && !h.Tag?
    ensures h.Reject? ==> h.status != TagBeforeBreak
  {
    if ai < 24 then Leaf(SimpleEvent(ai, key, tag), i)
    else if ai == 24 then
      if |p| - i < 1 || p[i] < 32 then Reject(Parse) else Leaf(SimpleEvent(p[i], key, tag), i + 1)
    else if ai == 25 then
      if |p| - i < 2 then Reject(Parse)
      else FloatHead(Half(BigEndian(p[i..i + 2])), key, strict, tag, i + 2)
    else if ai == 26 then
      if |p| - i < 4 then Reject(Parse)
      else FloatHead(Single(BigEndian(p[i..i + 4])), key, strict, tag, i + 4)
    else if ai == 27 then
      if |p| - i < 8 then Reject(Parse)
      else FloatHead(Double(BigEndian(p[i..i + 8])), key, strict, tag, i + 8)
    else Reject(Parse)
  }

  /** Major types 0 and 1: beyond int64 the item is the nearest double. */
  function IntHead(negative: bool, arg: nat, key: bool, strict: bool, tag: seq<byte>, next: nat): Head {
    if key && strict then Reject(Parse)
    else if key then Leaf(Text(SignedDecimal(negative, arg), TAG_STR, true, tag), next)
    else if !negative && arg <= INT64_MAX then Leaf(Int(false, arg, false, tag), next)
    else if negative && arg <= INT64_MAX + 1 then Leaf(Int(true, arg + 1, false, tag), next)
    else Leaf(Float(Beyond(negative, arg), false, tag), next)
  }

  /** Major types 2 and 3, definite length n at position i. */
  function StringHead(p: seq<byte>, i: nat, n: nat, isText: bool, key: bool, strict: bool, tag: seq<byte>): (h: Head)
    requires i <= |p|
    ensures h.Leaf? ==> i <= h.next <= |p|
    ensures !h.Begin? && !h.Tag?
    ensures h.Reject? ==> h.status != TagBeforeBreak
  {
    if n > |p| - i then Reject(Parse)
    else
      var s := p[i..i + n];
      if isText && !Utf8.Valid(s) then Reject(Encoding)
      else if isText then Leaf(Str(s, true, key, tag), i + n)
      else if key && strict then Reject(Parse)
      else if key then Leaf(Text(HexKey(s), TAG_STR, true, tag), i + n)
      else Leaf(ByteStr(s, true, key, tag), i + n)
  }

  /** Major types 4 and 5; guarded says whether the count is checked against the bytes left. */
  function ContainerHead(p: seq<byte>, i: nat, isMap: bool, rem: Remaining, key: bool, depth: nat, tag: seq<byte>,
                         guarded: bool): (h: Head)
    requires i <= |p|
    ensures h.Begin? ==> h.next == i
    ensures !h.Leaf? && !h.Tag?
    ensures h.Reject? ==> h.status != TagBeforeBreak
  {
    if key then Reject(Parse)
    else if guarded && rem.Items? && !isMap && rem.n > |p| - i then Reject(Parse)
    else if guarded && rem.Items? && isMap && rem.n > (|p| - i) / 2 then Reject(Parse)
    else if depth >= MAX_DEPTH then Reject(Depth)
    else Begin(isMap, if rem.Items? && isMap then Items(rem.n * 2) else rem, tag, i)
  }

  /** cbor_item: one head with the pending tag chain. */
  function ReadHead(p: seq<byte>, i: nat, chain: seq<nat>, key: bool, depth: nat, strict: bool, guarded: bool): (h: Head)
    requires i <= |p|
    ensures h.Leaf? ==> i < h.next <= |p|
    ensures h.Begin? ==> i < h.next <= |p|
    ensures h.Tag? ==> i < h.next <= |p|
    ensures h.Reject? ==> h.status != TagBeforeBreak
  {
    if i >= |p| then Reject(Parse)
    else
      var mt := p[i] / 32;
      var ai := p[i] % 32;
      var tag := ChainText(chain);
      if ai == 31 then
        if mt == 2 || mt == 3 then
          if key then Reject(Parse)
          else
            match ReadChunks(p, i + 1, mt == 3, strict)
            case ChunksBad(s) => Reject(s)
            case ChunksOk(s, k) => Leaf(IndefEvent(mt == 3, s, tag), k)
        else if mt == 4 || mt == 5 then ContainerHead(p, i + 1, mt == 5, UntilBreak, key, depth, tag, guarded)
        else Reject(Parse)
      else if mt == 7 then SimpleHead(p, i + 1, ai, key, strict, tag)
      else
        match ReadArg(p, i + 1, ai, strict)
        case ArgBad => Reject(Parse)
        case ArgOk(arg, j) =>
          if mt <= 1 then IntHead(mt == 1, arg, key, strict, tag, j)
          else if mt <= 3 then StringHead(p, j, arg, mt == 3, key, strict, tag)
          else if mt <= 5 then ContainerHead(p, j, mt == 5, Items(arg), key, depth, tag, guarded)
          else if |chain| >= TAG_MAX_LINKS then Reject(Parse)
          else Tag(arg, j)
  }

  // ---- items and bodies -------------------------------------------------------------

  /** The sink calls made, and where reading stopped or why it failed. */
  datatype Outcome = Done(events: seq<Event>, next: nat) | Failed(events: seq<Event>, status: Status)

  function Prepend(events: seq<Event>, o: Outcome): Outcome {
    match o
    case Done(e, n) => Done(events + e, n)
    case Failed(e, s) => Failed(events + e, s)
  }

  /**
   * One data item at i: tags, then a scalar or a container with its body. A break that follows a tag
   * inside an indefinite-length container is malformed; it is told apart because the decoder differs there.
   */
  function ReadItem(p: seq<byte>, i: nat, chain: seq<nat>, f: Frame, depth: nat, strict: bool, guarded: bool): (o: Outcome)
    requires i <= |p|
    ensures o.Done? ==> i < o.next <= |p|
    decreases |p| - i, 0, 0
  {
    if chain != [] && f.Breakable() && i < |p| && p[i] == 0xFF then Failed([], TagBeforeBreak)
    else
      match ReadHead(p, i, chain, f.KeySlot(), depth, strict, guarded)
      case Reject(s) => Failed([], s)
      case Tag(link, j) => ReadItem(p, j, chain + [link], f, depth, strict, guarded)
      case Leaf(e, j) => Done([e], j)
      case Begin(isMap, rem, tag, j) =>
        Prepend([Open(isMap, rem, tag)], ReadBody(p, j, Frame(rem, 0, isMap), depth + 1, strict, guarded))
  }

  /** The rest of a container: the items its frame still expects, then its end. */
  function ReadBody(p: seq<byte>, i: nat, f: Frame, depth: nat, strict: bool, guarded: bool): (o: Outcome)
    requires i <= |p|
    ensures o.Done? ==> i <= o.next <= |p|
    decreases |p| - i, 1, 0
  {
    if f.rem == Items(0) then Done([Close(f.isMap)], i)
    else if f.rem == UntilBreak && i < |p| && p[i] == 0xFF then
      if f.Breakable() then Done([Close(f.isMap)], i + 1) else Failed([], Parse)
    else
      match ReadItem(p, i, [], f, depth, strict, guarded)
      case Failed(e, s) => Failed(e, s)
      case Done(e, j) => Prepend(e, ReadBody(p, j, f.Next(), depth, strict, guarded))
  }

  /** The frame the one top-level item sits in: no key, no break. */
  const TOP: Frame := Frame(Items(1), 0, false)

  /** One data item from the start of the input. */
  function Read(p: seq<byte>, strict: bool): Outcome {
    ReadItem(p, 0, [], TOP, 0, strict, true)
  }
}
