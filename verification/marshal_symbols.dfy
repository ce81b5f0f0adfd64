/**
 * Symbol links of a Marshal stream: Ruby spells a symbol in full where it first occurs and as ';' with its number from
 * then on, as a value and as the name of a string's encoding. The transcoder's item is that of the names spelt in full.
 */
module MarshalSymbols {
  import opened Wrappers
  import opened Bytes
  import opened MarshalNumber
  import opened MarshalRead
  import opened MarshalTranscode
  import CborHeads
  import Utf8

  /** A symbol, or a string with one instance variable, whose value is true or false. */
  datatype Piece = Sym(name: Span) | Str(text: Span, ivar: Span, flag: bool)

  function NameOf(p: Piece): Span { if p.Sym? then p.name else p.ivar }

  // ---- the two ways to spell names ------------------------------------------------------

  /** The number of a name: where it first stands in the table. */
  function Number(table: seq<Span>, name: Span): (k: nat)
    requires name in table
    ensures k < |table| && table[k] == name && forall j :: 0 <= j < k ==> table[j] != name
  {
    if table[0] == name then 0 else 1 + Number(table[1..], name)
  }

  /** A name behind those of the table, by its number if linked and known. */
  function NameBytes(table: seq<Span>, name: Span, linked: bool): seq<byte>
    requires |table| < 0x1_0000_0000
  {
    if linked && name in table then [0x3B] + LongBytes(Number(table, name)) else [0x3A] + (LongBytes(|name|) + name)
  }

  /** The names spelt in full so far. */
  function Table(table: seq<Span>, name: Span, linked: bool): seq<Span> {
    if linked && name in table then table else table + [name]
  }

  function PieceBytes(table: seq<Span>, p: Piece, linked: bool): seq<byte>
    requires |table| < 0x1_0000_0000
  {
    match p
    case Sym(name) => NameBytes(table, name, linked)
    case Str(text, ivar, flag) =>
      [0x49, 0x22] + ((LongBytes(|text|) + text) + (LongBytes(1) + (NameBytes(table, ivar, linked) + [if flag then 0x54 else 0x46])))
  }

  function PiecesBytes(table: seq<Span>, ps: seq<Piece>, linked: bool): seq<byte>
    requires |table| + |ps| < 0x1_0000_0000
    decreases |ps|
  {
    if ps == [] then [] else PieceBytes(table, ps[0], linked) + PiecesBytes(Table(table, NameOf(ps[0]), linked), ps[1..], linked)
  }

  /** The array of the pieces, dumped. */
  function Dump(ps: seq<Piece>, linked: bool): seq<byte>
    requires |ps| < 0x1_0000_0000
  {
    [0x04, 0x08] + ([0x5B] + (LongBytes(|ps|) + PiecesBytes([], ps, linked)))
  }

  // ---- what they mean ----------------------------------------------------------------------

  /** A string is UTF-8 or US-ASCII by its variable E, in another encoding by the variable encoding, else binary. */
  function EncodingOf(ivar: Span, flag: bool): Encoding {
    if ivar == [0x65, 0x6E, 0x63, 0x6F, 0x64, 0x69, 0x6E, 0x67] then Named
    else if ivar == [0x45] then if flag then Utf8Text else UsAscii
    else Binary
  }

  function PieceItem(host: Host, p: Piece): Option<seq<byte>> {
    match p
    case Sym(name) => Some(SymbolItem(name))
    case Str(text, ivar, flag) => StringItem(host, false, text, EncodingOf(ivar, flag))
  }

  function PiecesItem(host: Host, ps: seq<Piece>): Option<seq<byte>> {
    if ps == [] then Some([])
    else if PieceItem(host, ps[0]).None? || PiecesItem(host, ps[1..]).None? then None
    else Some(PieceItem(host, ps[0]).value + PiecesItem(host, ps[1..]).value)
  }

  // ---- one name -------------------------------------------------------------------------------

  lemma LinkReads(c: Config, m: Memory, name: Span, depth: nat)
    requires name in m.syms && |m.syms| < 0x1_0000_0000 && Stands(c.s, m.at, [0x3B] + LongBytes(Number(m.syms, name))) && depth < MAX_DEPTH
    ensures var k := m.at + 1 + |LongBytes(Number(m.syms, name))|;
      && Value(c, m, false, true, depth, false) == Item(SymbolItem(name), m.(at := k))
      && IvarName(c, m) == Name(name, m.(at := k))
  {
    hide LongBytes, TakeLong, SymbolItem;
    StandsSplit(c.s, m.at, [0x3B], LongBytes(Number(m.syms, name)));
    StandsFrom(c.s, m.at, [0x3B]);
    LongReads(c.s, m.at + 1, Number(m.syms, name));
  }

  lemma FullReads(c: Config, m: Memory, name: Span, depth: nat)
    requires Stands(c.s, m.at, [0x3A] + (LongBytes(|name|) + name)) && depth < MAX_DEPTH
    ensures var m1 := m.(at := m.at + 1 + |LongBytes(|name|)| + |name|, syms := m.syms + [name]);
      Value(c, m, false, true, depth, false) == Item(SymbolItem(name), m1) && IvarName(c, m) == Name(name, m1)
  {
    hide LongBytes, TakeBytes, SymbolItem;
    StandsSplit(c.s, m.at, [0x3A], LongBytes(|name|) + name);
    StandsFrom(c.s, m.at, [0x3A]);
    BytesRead(c.s, m.at + 1, name);
  }

  /** Either way the name is read, and the reader's symbols are the table's. */
  lemma NameReads(c: Config, m: Memory, name: Span, linked: bool, depth: nat)
    requires |m.syms| < 0x1_0000_0000 && Stands(c.s, m.at, NameBytes(m.syms, name, linked)) && depth < MAX_DEPTH
    ensures var m1 := m.(at := m.at + |NameBytes(m.syms, name, linked)|, syms := Table(m.syms, name, linked));
      Value(c, m, false, true, depth, false) == Item(SymbolItem(name), m1) && IvarName(c, m) == Name(name, m1)
  {
    hide LongBytes, Value, SymbolItem, IvarName;
    if linked && name in m.syms { LinkReads(c, m, name, depth); } else { FullReads(c, m, name, depth); }
  }

  // ---- one piece -------------------------------------------------------------------------------

  lemma FlagReads(c: Config, m: Memory, depth: nat)
    requires m.at < |c.s| && (c.s[m.at] == 0x54 || c.s[m.at] == 0x46) && depth < MAX_DEPTH
    ensures Value(c, m, false, false, depth, false) == Item([], m.(at := m.at + 1))
  {}

  /** The one variable behind a string. */
  lemma TailReads(c: Config, m: Memory, ivar: Span, flag: bool, linked: bool, depth: nat)
    requires |m.syms| < 0x1_0000_0000 && depth < MAX_DEPTH
    requires Stands(c.s, m.at, LongBytes(1) + (NameBytes(m.syms, ivar, linked) + [if flag then 0x54 else 0x46]))
    ensures var used := |LongBytes(1)| + |NameBytes(m.syms, ivar, linked)| + 1;
      IvarPairs(c, m, false, depth) == Ivars(EncodingOf(ivar, flag), m.(at := m.at + used, syms := Table(m.syms, ivar, linked)))
  {
    hide LongBytes, NameBytes, Value, IvarName, TakeLong;
    var f: byte := if flag then 0x54 else 0x46;
    var name := NameBytes(m.syms, ivar, linked);
    StandsSplit(c.s, m.at, LongBytes(1), name + [f]);
    LongReads(c.s, m.at, 1);
    var m1 := m.(at := m.at + |LongBytes(1)|);
    StandsSplit(c.s, m1.at, name, [f]);
    NameReads(c, m1, ivar, linked, depth);
    var m2 := m1.(at := m1.at + |name|, syms := Table(m.syms, ivar, linked));
    StandsFrom(c.s, m2.at, [f]);
    FlagReads(c, m2, depth);
    OneVariable(c, m, m1, m2, ivar, flag, depth);
  }

  lemma OneVariable(c: Config, m: Memory, m1: Memory, m2: Memory, ivar: Span, flag: bool, depth: nat)
    requires m.at <= |c.s| && m1.at <= |c.s| && TakeLong(c.s, m.at) == Taken(1, m1.at) && m1 == m.(at := m1.at)
    requires IvarName(c, m1) == Name(ivar, m2) && m2.at < |c.s| && c.s[m2.at] == (if flag then 0x54 else 0x46)
    requires Value(c, m2, false, false, depth, false) == Item([], m2.(at := m2.at + 1))
    ensures IvarPairs(c, m, false, depth) == Ivars(EncodingOf(ivar, flag), m2.(at := m2.at + 1))
  {
    hide Value, IvarName, TakeLong;
    var m3 := m2.(at := m2.at + 1);
    assert IvarList(c, m3, 0, EncodingOf(ivar, flag), false, depth) == Ivars(EncodingOf(ivar, flag), m3);
    assert EncodingAfter(Binary, ivar, c.s[m2.at]) == EncodingOf(ivar, flag);
  }

  /** What is left in memory behind a piece. */
  predicate Behind(m: Memory, r: Memory, p: Piece, used: nat, linked: bool) {
    r.at == m.at + used && r.syms == Table(m.syms, NameOf(p), linked)
  }

  lemma StrReads(c: Config, m: Memory, p: Piece, linked: bool, depth: nat)
    requires p.Str? && |m.syms| < 0x1_0000_0000 && Stands(c.s, m.at, PieceBytes(m.syms, p, linked)) && depth < MAX_DEPTH
    ensures var v := Value(c, m, false, true, depth, false);
      match PieceItem(c.host, p)
      case None => v.Declined?
      case Some(b) => v.Item? && v.bytes == b && Behind(m, v.m, p, |PieceBytes(m.syms, p, linked)|, linked)
  {
    hide LongBytes, NameBytes, StringItem, TakeBytes, IvarPairs, Construct;
    var long, name := LongBytes(|p.text|), NameBytes(m.syms, p.ivar, linked);
    var tail := LongBytes(1) + (name + [if p.flag then 0x54 else 0x46]);
    StandsSplit(c.s, m.at, [0x49, 0x22], (long + p.text) + tail);
    StandsSplit(c.s, m.at + 2, long + p.text, tail);
    StandsFrom(c.s, m.at, [0x49, 0x22]);
    assert c.s[m.at..m.at + 2][1] == c.s[m.at + 1];
    BytesRead(c.s, m.at + 2, p.text);
    var m1 := Begin(c.s, m, true);
    var k := m.at + 2 + |long + p.text|;
    TailReads(c, m1.(at := k), p.ivar, p.flag, linked, depth);
    Wrapping(c, m1, Some(|m.objs|), depth, p, k, m1.(at := k + |tail|, syms := Table(m.syms, p.ivar, linked)));
    PieceLength(m.syms, p, linked);
  }

  lemma PieceLength(table: seq<Span>, p: Piece, linked: bool)
    requires p.Str? && |table| < 0x1_0000_0000
    ensures |PieceBytes(table, p, linked)| == 2 + |LongBytes(|p.text|) + p.text| + |LongBytes(1)| + |NameBytes(table, p.ivar, linked)| + 1
  {
    hide LongBytes, NameBytes;
  }

  lemma Wrapping(c: Config, m: Memory, slot: Option<nat>, depth: nat, p: Piece, k: nat, after: Memory)
    requires p.Str? && m.at < |c.s| && c.s[m.at] == 0x22 && m.at + 1 < k <= |c.s| && TakeBytes(c.s, m.at + 1) == Cutting(p.text, k)
    requires IvarPairs(c, m.(at := k), false, depth) == Ivars(EncodingOf(p.ivar, p.flag), after)
    ensures Construct(c, m, 0x49, slot, false, true, depth)
         == Out(true, StringItem(c.host, false, p.text, EncodingOf(p.ivar, p.flag)), Noted(after, slot, Payload(p.text, EncodingOf(p.ivar, p.flag))))
  {
    hide TakeBytes, IvarPairs, StringItem;
  }

  lemma PieceReads(c: Config, m: Memory, p: Piece, linked: bool, depth: nat)
    requires |m.syms| < 0x1_0000_0000 && Stands(c.s, m.at, PieceBytes(m.syms, p, linked)) && depth < MAX_DEPTH
    ensures var v := Value(c, m, false, true, depth, false);
      match PieceItem(c.host, p)
      case None => v.Declined?
      case Some(b) => v.Item? && v.bytes == b && Behind(m, v.m, p, |PieceBytes(m.syms, p, linked)|, linked)
  {
    hide Value, NameBytes, StringItem, SymbolItem;
    if p.Sym? { NameReads(c, m, p.name, linked, depth); } else { StrReads(c, m, p, linked, depth); }
  }

  // ---- the array ---------------------------------------------------------------------------------

  lemma {:induction false} PiecesRead(c: Config, m: Memory, ps: seq<Piece>, linked: bool, depth: nat)
    requires |m.syms| + |ps| < 0x1_0000_0000 && Stands(c.s, m.at, PiecesBytes(m.syms, ps, linked)) && depth < MAX_DEPTH
    ensures var v := Elements(c, m, |ps|, false, true, depth);
      match PiecesItem(c.host, ps)
      case None => v.Declined?
      case Some(b) => v.Item? && v.bytes == b && v.m.at == m.at + |PiecesBytes(m.syms, ps, linked)|
    decreases |ps|
  {
    hide Value, PieceBytes, PieceItem;
    if ps != [] {
      var head := PieceBytes(m.syms, ps[0], linked);
      var table := Table(m.syms, NameOf(ps[0]), linked);
      StandsSplit(c.s, m.at, head, PiecesBytes(table, ps[1..], linked));
      PieceReads(c, m, ps[0], linked, depth);
      if PieceItem(c.host, ps[0]).Some? {
        PiecesRead(c, Value(c, m, false, true, depth, false).m, ps[1..], linked, depth);
      }
    }
  }

  /** The item of the array, however its names are spelt. */
  function ArrayItem(host: Host, ps: seq<Piece>): Option<seq<byte>>
    requires |ps| < 0x1_0000_0000
  {
    if PiecesItem(host, ps).None? then None else Some(CborHeads.HeadBytes(4, |ps|) + PiecesItem(host, ps).value)
  }

  lemma DumpReads(ps: seq<Piece>, linked: bool, canonical: bool, host: Host)
    requires |ps| < 0x1_0000_0000
    ensures FromMarshal(Dump(ps, linked), canonical, host) == ArrayItem(host, ps)
  {
    hide LongBytes, Elements, PiecesBytes, PiecesItem, CborHeads.HeadBytes, TakeLong;
    var s := Dump(ps, linked);
    var c, m := Config(s, canonical, host), Memory(2, [], []);
    var pieces := PiecesBytes([], ps, linked);
    assert s[0..0 + |s|] == s;
    StandsSplit(s, 0, [0x04, 0x08], [0x5B] + (LongBytes(|ps|) + pieces));
    StandsSplit(s, 2, [0x5B], LongBytes(|ps|) + pieces);
    StandsSplit(s, 3, LongBytes(|ps|), pieces);
    StandsFrom(s, 2, [0x5B]);
    LongReads(s, 3, |ps|);
    var m1 := Begin(s, m, true);
    var m2 := m1.(at := 3 + |LongBytes(|ps|)|);
    PiecesRead(c, m2, ps, linked, 1);
    ArrayReads(c, m, m2, ps, linked);
    assert s[..2] == [0x04, 0x08];
    assert |s| == 3 + |LongBytes(|ps|)| + |pieces|;
  }

  lemma ArrayReads(c: Config, m: Memory, m2: Memory, ps: seq<Piece>, linked: bool)
    requires m == Memory(2, [], []) && |ps| < 0x1_0000_0000 && 3 <= |c.s| && c.s[2] == 0x5B && TakeLong(c.s, 3) == Taken(|ps|, m2.at)
    requires m2 == Begin(c.s, m, true).(at := m2.at)
    ensures var v, e := Value(c, m, false, true, 0, false), Elements(c, m2, |ps|, false, true, 1);
      if e.Declined? then v.Declined? else v.Item? && v.bytes == CborHeads.HeadBytes(4, |ps|) + e.bytes && v.m.at == e.m.at
  {
    hide Elements, CborHeads.HeadBytes, TakeLong;
  }

  /** Names by their numbers or in full: the same item, or refused alike. */
  lemma LinksAreNames(ps: seq<Piece>, canonical: bool, host: Host)
    requires |ps| < 0x1_0000_0000
    ensures FromMarshal(Dump(ps, true), canonical, host) == FromMarshal(Dump(ps, false), canonical, host) == ArrayItem(host, ps)
  {
    DumpReads(ps, true, canonical, host);
    DumpReads(ps, false, canonical, host);
  }
  // ---- which strings are taken ----------------------------------------------------------------------

  /**
   * As a value a UTF-8 string must be UTF-8, a US-ASCII or binary one ASCII, and no string of another encoding is taken;
   * its item is text, or the simple value its word names.
   */
  lemma ValueTaken(p: Span, enc: Encoding)
    ensures ValueItem(p, enc).Some? <==> enc != Named && if enc == Utf8Text then Utf8.Valid(p) else forall k :: 0 <= k < |p| ==> p[k] < 0x80
    ensures var b := ValueItem(p, enc);
      b.Some? ==> b.value == if CborHeads.SimpleOf(p).Some? then CborHeads.SimpleBytes(CborHeads.SimpleOf(p).value) else CborHeads.HeadBytes(3, |p|) + p
  {
    hide Utf8.Valid, CborHeads.SimpleOf, CborHeads.HeadBytes;
    if CborHeads.SimpleOf(p).Some? { CborHeads.WordIsText(p); }
    if forall k :: 0 <= k < |p| ==> p[k] < 0x80 { Utf8.AsciiValid(p); }
    if p == [] { Utf8.AsciiValid(p); }
  }

  /** As a key a string that is no UTF-8 is a byte string, and a text the resolver types is refused. */
  lemma KeyTaken(host: Host, p: Span)
    ensures !Utf8.Valid(p) ==> KeyItem(host, p) == Some(CborHeads.HeadBytes(2, |p|) + p)
    ensures Utf8.Valid(p) ==> KeyItem(host, p) == if host.typed(p) then None else ValueItem(p, Utf8Text)
  {
    hide Utf8.Valid, CborHeads.SimpleOf, CborHeads.HeadBytes;
    if p == [] { Utf8.AsciiValid(p); }
  }
}
