/** What the decoder delivers for one head, in terms of the bytes that stand there and the numbers they denote. */
module CborValues {
  import opened Bytes
  import opened CborRead
  import opened CborLoose
  import Utf8

  // ---- heads by their bytes -----------------------------------------------------------

  /** The number of up to eight bytes in network order. */
  function Network(b: seq<byte>): nat
    requires |b| in {1, 2, 4, 8}
  {
    if |b| == 1 then b[0]
    else if |b| == 2 then b[0] as int * 256 + b[1]
    else if |b| == 4 then ((b[0] as int * 256 + b[1]) * 256 + b[2]) * 256 + b[3]
    else ((((((b[0] as int * 256 + b[1]) * 256 + b[2]) * 256 + b[3]) * 256 + b[4]) * 256 + b[5]) * 256 + b[6]) * 256 + b[7]
  }

  /** A head of major type mt: the argument in the first byte, or in b behind it. */
  function Wire(mt: nat, small: nat, b: seq<byte>): seq<byte>
    requires mt < 8 && small < 24 && |b| in {0, 1, 2, 4, 8}
  {
    if b == [] then [mt * 32 + small]
    else [mt * 32 + (if |b| == 1 then 24 else if |b| == 2 then 25 else if |b| == 4 then 26 else 27)] + b
  }

  function Argument(small: nat, b: seq<byte>): nat
    requires |b| in {0, 1, 2, 4, 8}
  {
    if b == [] then small else Network(b)
  }

  /** No shorter head has this argument. */
  predicate Shortest(n: nat, width: nat) {
    if n < 24 then width == 0
    else if n < 0x100 then width == 1
    else if n < 0x1_0000 then width == 2
    else if n < 0x1_0000_0000 then width == 4
    else width == 8
  }

  lemma NetworkIs(b: seq<byte>)
    requires |b| in {1, 2, 4, 8}
    ensures BigEndian(b) == Network(b)
  {
    BigLast(b);
    if |b| > 1 { BigLast(b[..|b| - 1]); }
    if |b| > 2 {
      BigLast(b[..|b| - 2]);
      BigLast(b[..|b| - 3]);
    }
    if |b| > 4 {
      BigLast(b[..|b| - 4]);
      BigLast(b[..|b| - 5]);
      BigLast(b[..|b| - 6]);
      BigLast(b[..|b| - 7]);
    }
    hide BigEndian;
    assert BigEndian([]) == 0 by { NoBytes(); }
    Prefixes(b);
  }

  lemma NoBytes()
    ensures BigEndian([]) == 0
  {}

  /** The value without the last byte, 256 times, and the last byte. */
  lemma BigLast(s: seq<byte>)
    requires s != []
    ensures BigEndian(s) == BigEndian(s[..|s| - 1]) * 256 + s[|s| - 1]
  {}

  lemma Prefixes(b: seq<byte>)
    ensures forall j, k :: 0 <= k <= j <= |b| ==> b[..j][..k] == b[..k]
  {}

  lemma WireArg(p: seq<byte>, i: nat, mt: nat, small: nat, b: seq<byte>, strict: bool)
    requires mt < 8 && small < 24 && |b| in {0, 1, 2, 4, 8} && Stands(p, i, Wire(mt, small, b))
    ensures i + 1 + |b| <= |p| && p[i] / 32 == mt && p[i] % 32 < 28
    ensures var n := Argument(small, b);
      ReadArg(p, i + 1, p[i] % 32, strict) == if strict && !Shortest(n, |b|) then ArgBad else ArgOk(n, i + 1 + |b|)
  {
    hide BigEndian, Network;
    var w := Wire(mt, small, b);
    assert p[i] == w[0];
    if b != [] {
      assert p[i + 1..i + 1 + |b|] == p[i..i + |w|][1..] == b;
      NetworkIs(b);
      Powers();
      assert BigEndian(b) < Power256(|b|);
    }
  }

  // ---- integers ---------------------------------------------------------------------------

  /** The integer an event denotes, by its own fields. */
  function Denotes(e: Event): int {
    match e
    case Int(negative, mag, _, _) => if negative then 0 - mag as int else mag
    case Float(Beyond(negative, n), _, _) => if negative then -1 - n else n
    case _ => 0
  }

  predicate IsInteger(e: Event) { e.Int? || (e.Float? && e.number.Beyond?) }

  /**
   * Outside a key slot a head of major type 0 is delivered as its argument and one of major type 1 as -1 minus it, in
   * every width; strict mode takes only the shortest width. It is an integer call within int64 and for the one number
   * below, -2^63 - 1; beyond, a double.
   */
  lemma IntegerDelivered(p: seq<byte>, i: nat, negative: bool, small: nat, b: seq<byte>, chain: seq<nat>, depth: nat, strict: bool,
                         guarded: bool)
    requires small < 24 && |b| in {0, 1, 2, 4, 8} && Stands(p, i, Wire(if negative then 1 else 0, small, b))
    ensures var h, n := ReadHead(p, i, chain, false, depth, strict, guarded), Argument(small, b);
      if strict && !Shortest(n, |b|) then h == Reject(Parse)
      else
        && h.Leaf? && h.next == i + 1 + |b| && IsInteger(h.event) && !h.event.isKey && h.event.tag == ChainText(chain)
        && Denotes(h.event) == (if negative then -1 - n else n)
        && (h.event.Int? <==> -0x8000_0000_0000_0001 <= Denotes(h.event) < 0x8000_0000_0000_0000)
  {
    hide ReadArg, ChainText, Network, Shortest;
    WireArg(p, i, if negative then 1 else 0, small, b, strict);
  }

  /** So a whole input that is one integer's head makes one call, and that call denotes the integer. */
  lemma IntegerDecoded(negative: bool, small: nat, b: seq<byte>, strict: bool)
    requires small < 24 && |b| in {0, 1, 2, 4, 8}
    ensures var p, n := Wire(if negative then 1 else 0, small, b), Argument(small, b);
      var r := LooseRead(p, strict);
      if strict && !Shortest(n, |b|) then r == Lost([], Parse)
      else
        && r.Left? && |r.events| == 1 && r.next == |p| && r.chain == [] && IsInteger(r.events[0])
        && Denotes(r.events[0]) == if negative then -1 - n else n
  {
    hide ReadHead, Network, Shortest;
    var p := Wire(if negative then 1 else 0, small, b);
    assert p[0..0 + |p|] == p;
    IntegerDelivered(p, 0, negative, small, b, [], 0, strict, true);
  }

  /** -2^63 - 1 is no int64, and is delivered as an integer. */
  lemma BelowInt64(strict: bool)
    ensures var p := [0x3B, 0x80, 0, 0, 0, 0, 0, 0, 0];
      LooseRead(p, strict) == Left([Int(true, 0x8000_0000_0000_0001, false, [])], 9, [])
  {
    hide ReadHead;
    var b: seq<byte> := [0x80, 0, 0, 0, 0, 0, 0, 0];
    var p := Wire(1, 0, b);
    assert p == [0x3B, 0x80, 0, 0, 0, 0, 0, 0, 0] && p[0..0 + |p|] == p;
    assert Network(b) == 0x8000_0000_0000_0000;
    IntegerDelivered(p, 0, true, 0, b, [], 0, strict, true);
    assert ChainText([]) == [];
  }

  // ---- strings, containers and tags ------------------------------------------------------------

  /** A definite string outside a key slot: the bytes behind the head, borrowed; text must be UTF-8. */
  lemma StringDelivered(p: seq<byte>, i: nat, isText: bool, small: nat, b: seq<byte>, s: seq<byte>, chain: seq<nat>, depth: nat,
                        strict: bool, guarded: bool)
    requires small < 24 && |b| in {0, 1, 2, 4, 8} && Stands(p, i, Wire(if isText then 3 else 2, small, b) + s) && Argument(small, b) == |s|
    ensures var h, k := ReadHead(p, i, chain, false, depth, strict, guarded), i + 1 + |b| + |s|;
      if strict && !Shortest(|s|, |b|) then h == Reject(Parse)
      else if !isText then h == Leaf(ByteStr(s, true, false, ChainText(chain)), k)
      else if Utf8.Valid(s) then h == Leaf(Str(s, true, false, ChainText(chain)), k)
      else h == Reject(Encoding)
  {
    hide ReadArg, ChainText, Network, Shortest, Utf8.Valid, Argument, Wire;
    var w := Wire(if isText then 3 else 2, small, b);
    StandsSplit(p, i, w, s);
    WireLength(if isText then 3 else 2, small, b);
    WireArg(p, i, if isText then 3 else 2, small, b, strict);
    hide Stands;
    Behind(p, i + 1 + |b|, s);
  }

  lemma WireLength(mt: nat, small: nat, b: seq<byte>)
    requires mt < 8 && small < 24 && |b| in {0, 1, 2, 4, 8}
    ensures |Wire(mt, small, b)| == 1 + |b|
  {}

  lemma Behind(p: seq<byte>, i: nat, s: seq<byte>)
    requires Stands(p, i, s)
    ensures i + |s| <= |p| && p[i..i + |s|] == s
  {}

  /** A definite container opens for as many items as its argument says, a map for twice as many. */
  lemma ContainerDelivered(p: seq<byte>, i: nat, isMap: bool, small: nat, b: seq<byte>, chain: seq<nat>, depth: nat, strict: bool)
    requires small < 24 && |b| in {0, 1, 2, 4, 8} && Stands(p, i, Wire(if isMap then 5 else 4, small, b))
    ensures var h, n := ReadHead(p, i, chain, false, depth, strict, false), Argument(small, b);
      if strict && !Shortest(n, |b|) then h == Reject(Parse)
      else if depth >= 1000 then h == Reject(Depth)
      else h == Begin(isMap, Items(if isMap then 2 * n else n), ChainText(chain), i + 1 + |b|)
  {
    hide ReadArg, ChainText, Network, Shortest;
    WireArg(p, i, if isMap then 5 else 4, small, b, strict);
  }

  /** A tag is its number, up to 64 of them. */
  lemma TagDelivered(p: seq<byte>, i: nat, small: nat, b: seq<byte>, chain: seq<nat>, key: bool, depth: nat, strict: bool, guarded: bool)
    requires small < 24 && |b| in {0, 1, 2, 4, 8} && Stands(p, i, Wire(6, small, b))
    ensures var h, n := ReadHead(p, i, chain, key, depth, strict, guarded), Argument(small, b);
      if (strict && !Shortest(n, |b|)) || |chain| >= 64 then h == Reject(Parse) else h == Tag(n, i + 1 + |b|)
  {
    hide ReadArg, ChainText, Network, Shortest;
    WireArg(p, i, 6, small, b, strict);
  }

  /** The literal words, and floats by the value of their bytes. */
  lemma SimpleDelivered(p: seq<byte>, i: nat, chain: seq<nat>, depth: nat, strict: bool, guarded: bool)
    requires i < |p| && p[i] >= 0xE0
    ensures var h, tag := ReadHead(p, i, chain, false, depth, strict, guarded), ChainText(chain);
      && (p[i] == 0xF4 ==> h == Leaf(Text([0x66, 0x61, 0x6C, 0x73, 0x65], 3, false, tag), i + 1))
      && (p[i] == 0xF5 ==> h == Leaf(Text([0x74, 0x72, 0x75, 0x65], 3, false, tag), i + 1))
      && (p[i] == 0xF6 ==> h == Leaf(Text([0x6E, 0x75, 0x6C, 0x6C], 4, false, tag), i + 1))
      && (p[i] == 0xF7 ==> h.Leaf? && h.event.Text? && h.event.tagId == 0 && h.next == i + 1)
      && (p[i] < 0xF4 ==> h == Leaf(Text(SimpleText(p[i] - 0xE0), 0, false, tag), i + 1))
      && (p[i] == 0xF8 && i + 1 < |p| ==>
            h == if p[i + 1] < 32 then Reject(Parse) else Leaf(Text(SimpleText(p[i + 1]), 0, false, tag), i + 2))
      && (p[i] == 0xF9 && i + 2 < |p| ==> h == Leaf(Float(Half(Network(p[i + 1..i + 3])), false, tag), i + 3))
      && (p[i] == 0xFA && i + 4 < |p| ==> h == Leaf(Float(Single(Network(p[i + 1..i + 5])), false, tag), i + 5))
      && (p[i] == 0xFB && i + 8 < |p| ==> h == Leaf(Float(Double(Network(p[i + 1..i + 9])), false, tag), i + 9))
      && (p[i] >= 0xFC ==> h == Reject(Parse))
  {
    hide ChainText, Network, BigEndian, SimpleText, ReadChunks, ReadArg;
    if i + 2 < |p| { NetworkIs(p[i + 1..i + 3]); }
    if i + 4 < |p| { NetworkIs(p[i + 1..i + 5]); }
    if i + 8 < |p| { NetworkIs(p[i + 1..i + 9]); }
    assert Ascii("false") == [0x66, 0x61, 0x6C, 0x73, 0x65];
    assert Ascii("true") == [0x74, 0x72, 0x75, 0x65];
    assert Ascii("null") == [0x6E, 0x75, 0x6C, 0x6C];
  }
}
