/** What may stand between the quotes of a JSON string, as a list of characters: section 7 of RFC 8259. */
module JsonStrings {
  import opened JsonGrammar

  /** The value of a hexadecimal digit. */
  function Nibble(c: bv8): nat {
    if 0x30 <= c <= 0x39 then (c - 0x30) as nat
    else if 0x41 <= c <= 0x46 then (c - 0x41) as nat + 10
    else if 0x61 <= c <= 0x66 then (c - 0x61) as nat + 10
    else 16
  }

  /** Four hexadecimal digits behind a backslash and a u. */
  datatype Quad = Quad(a: bv8, b: bv8, c: bv8, d: bv8) {
    predicate Ok() { Nibble(a) < 16 && Nibble(b) < 16 && Nibble(c) < 16 && Nibble(d) < 16 }

    function Value(): nat { ((Nibble(a) * 16 + Nibble(b)) * 16 + Nibble(c)) * 16 + Nibble(d) }

    function Text(): seq<bv8> { [0x5C, 0x75, a, b, c, d] }
  }

  /** A byte as it is, a short escape, a code point, or a surrogate pair. */
  datatype Char = Plain(c: bv8) | Escape(c: bv8) | Point(q: Quad) | Pair(high: Quad, low: Quad)

  predicate CharOk(x: Char) {
    match x
    case Plain(c) => c >= 0x20 && c != 0x22 && c != 0x5C
    case Escape(c) => c == 0x22 || c == 0x5C || c == 0x2F || c == 0x62 || c == 0x66 || c == 0x6E || c == 0x72 || c == 0x74
    case Point(q) => q.Ok() && !(0xD800 <= q.Value() < 0xE000)
    case Pair(h, l) => h.Ok() && l.Ok() && 0xD800 <= h.Value() < 0xDC00 && 0xDC00 <= l.Value() < 0xE000
  }

  function CharText(x: Char): seq<bv8> {
    match x
    case Plain(c) => [c]
    case Escape(c) => [0x5C, c]
    case Point(q) => q.Text()
    case Pair(h, l) => h.Text() + l.Text()
  }

  predicate CharsOk(cs: seq<Char>) { forall k :: 0 <= k < |cs| ==> CharOk(cs[k]) }

  function CharsText(cs: seq<Char>): seq<bv8> {
    if cs == [] then [] else CharText(cs[0]) + CharsText(cs[1..])
  }

  // ---- one character ------------------------------------------------------------------

  lemma NibbleIsHex(c: bv8)
    ensures HexDigit(c) <==> Nibble(c) < 16
    ensures HexDigit(c) ==> HexValue(c) == Nibble(c)
  {}

  lemma QuadIsHex4(s: seq<bv8>, q: Quad)
    requires |s| >= 4 && q == Quad(s[0], s[1], s[2], s[3])
    ensures Hex4(s) <==> q.Ok()
    ensures Hex4(s) ==> Hex4Value(s) == q.Value()
  {
    NibbleIsHex(s[0]);
    NibbleIsHex(s[1]);
    NibbleIsHex(s[2]);
    NibbleIsHex(s[3]);
    hide HexDigit, HexValue, Nibble;
  }

  lemma QuadLength(s: seq<bv8>, q: Quad, rest: seq<bv8>)
    requires s == q.Text() + rest && q.Ok()
    ensures |s| >= 6 && s[0] == BACKSLASH && s[1] == 0x75 && Hex4(s[2..]) && Hex4Value(s[2..]) == q.Value() && s[6..] == rest
  {
    assert s[2..][0] == q.a && s[2..][1] == q.b && s[2..][2] == q.c && s[2..][3] == q.d;
    QuadIsHex4(s[2..], q);
  }

  lemma PairLength(h: Quad, l: Quad, rest: seq<bv8>)
    requires h.Ok() && l.Ok() && 0xD800 <= h.Value() < 0xDC00 && 0xDC00 <= l.Value() < 0xE000
    ensures UnicodeEscape(h.Text() + (l.Text() + rest)) == 12
  {
    hide Hex4, Hex4Value, Quad.Ok, Quad.Value;
    var s := h.Text() + (l.Text() + rest);
    QuadLength(s, h, l.Text() + rest);
    QuadLength(s[6..], l, rest);
    assert s[6..][2..] == s[8..] && s[6..][0] == s[6] && s[6..][1] == s[7];
  }

  lemma PointLength(q: Quad, rest: seq<bv8>)
    requires q.Ok() && !(0xD800 <= q.Value() < 0xE000)
    ensures UnicodeEscape(q.Text() + rest) == 6
  {
    hide Hex4, Hex4Value, Quad.Ok, Quad.Value;
    QuadLength(q.Text() + rest, q, rest);
  }

  lemma CharReads(x: Char, rest: seq<bv8>)
    requires CharOk(x)
    ensures CharLength(CharText(x) + rest) == |CharText(x)| > 0
  {
    hide UnicodeEscape, Quad.Ok, Quad.Value;
    match x
    case Plain(c) =>
    case Escape(c) =>
    case Point(q) => PointLength(q, rest);
    case Pair(h, l) =>
      PairLength(h, l, rest);
      assert h.Text() + l.Text() + rest == h.Text() + (l.Text() + rest);
  }

  lemma QuadOf(s: seq<bv8>) returns (q: Quad)
    requires |s| >= 6 && s[0] == BACKSLASH && s[1] == 0x75 && Hex4(s[2..])
    ensures q.Ok() && q.Value() == Hex4Value(s[2..]) && s[..6] == q.Text()
  {
    q := Quad(s[2], s[3], s[4], s[5]);
    QuadIsHex4(s[2..], q);
  }

  lemma UnicodeOf(s: seq<bv8>) returns (x: Char)
    requires |s| >= 2 && s[0] == BACKSLASH && s[1] == 0x75 && UnicodeEscape(s) > 0
    ensures CharOk(x) && CharText(x) == s[..UnicodeEscape(s)]
  {
    hide Hex4, Hex4Value, Quad.Ok, Quad.Value;
    Hex4Long(s[2..]);
    var h := QuadOf(s);
    if UnicodeEscape(s) == 6 {
      x := Point(h);
    } else {
      assert s[6..][2..] == s[8..];
      Hex4Long(s[8..]);
      var l := QuadOf(s[6..]);
      x := Pair(h, l);
      assert s[..12] == s[..6] + s[6..][..6];
    }
  }

  lemma Hex4Long(s: seq<bv8>)
    ensures Hex4(s) ==> |s| >= 4
  {}

  lemma CharOf(s: seq<bv8>) returns (x: Char)
    requires CharLength(s) > 0
    ensures CharOk(x) && CharText(x) == s[..CharLength(s)]
  {
    hide UnicodeEscape, Quad.Ok, Quad.Value;
    if s[0] != BACKSLASH { x := Plain(s[0]); }
    else if s[1] == 0x75 { x := UnicodeOf(s); }
    else { x := Escape(s[1]); }
  }

  // ---- the whole content -----------------------------------------------------------------

  lemma {:induction false} CharsContent(cs: seq<Char>)
    requires CharsOk(cs)
    ensures Content(CharsText(cs))
    decreases |cs|
  {
    hide CharLength, CharText, CharOk;
    if cs != [] {
      CharsContent(cs[1..]);
      CharReads(cs[0], CharsText(cs[1..]));
      assert (CharText(cs[0]) + CharsText(cs[1..]))[|CharText(cs[0])|..] == CharsText(cs[1..]);
    }
  }

  lemma {:induction false} ContentChars(s: seq<bv8>) returns (cs: seq<Char>)
    requires Content(s)
    ensures CharsOk(cs) && CharsText(cs) == s
    decreases |s|
  {
    hide CharLength, CharText, CharOk;
    cs := [];
    if s != [] {
      var n := CharLength(s);
      var x := CharOf(s);
      var rest := ContentChars(s[n..]);
      cs := [x] + rest;
      assert cs[1..] == rest && s == s[..n] + s[n..];
    }
  }

  /** The content of a string is exactly a list of characters; a lone surrogate is none. */
  lemma ContentExactly(s: seq<bv8>)
    ensures Content(s) <==> exists cs :: CharsOk(cs) && CharsText(cs) == s
  {
    hide Content, CharsText, CharsOk;
    if Content(s) { var cs := ContentChars(s); }
    forall cs | CharsOk(cs) && CharsText(cs) == s ensures Content(s) { CharsContent(cs); }
  }
}
