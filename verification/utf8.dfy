/** UTF-8 well-formedness: section 4 of RFC 3629, one encoded character at a time. */
module Utf8 {
  import opened Bytes

  predicate Continuation(c: byte) { 0x80 <= c <= 0xBF }

  /** The range the second byte must fall in, given the first; an empty range for bytes that lead nothing. */
  function SecondLow(b: byte): byte {
    if b == 0xE0 then 0xA0 else if b == 0xF0 then 0x90 else 0x80
  }

  function SecondHigh(b: byte): byte {
    if b == 0xED then 0x9F else if b == 0xF4 then 0x8F else 0xBF
  }

  /** How many continuation bytes the lead byte asks for; 4 for a byte that cannot lead. */
  function Need(b: byte): nat {
    if b < 0x80 then 0
    else if 0xC2 <= b <= 0xDF then 1
    else if 0xE0 <= b <= 0xEF then 2
    else if 0xF0 <= b <= 0xF4 then 3
    else 4
  }

  /** The length of the character s starts with, or 0 when it starts with none. */
  function Character(s: seq<byte>): (n: nat)
    ensures n <= |s|
  {
    if s == [] then 0
    else
      var need := Need(s[0]);
      if need == 4 || need >= |s| then 0
      else if need > 0 && !(SecondLow(s[0]) <= s[1] <= SecondHigh(s[0])) then 0
      else if need > 1 && !Continuation(s[2]) then 0
      else if need > 2 && !Continuation(s[3]) then 0
      else need + 1
  }

  /** yep_utf8_validate. */
  predicate Valid(s: seq<byte>)
    decreases |s|
  {
    s == [] || (Character(s) > 0 && Valid(s[Character(s)..]))
  }

  lemma CharacterPrefix(a: seq<byte>, b: seq<byte>)
    requires Character(a) > 0
    ensures Character(a + b) == Character(a)
  {}

  /** Chunk-by-chunk validity gives whole-string validity: what indefinite-length text rests on. */
  lemma {:induction false} ValidJoins(a: seq<byte>, b: seq<byte>)
    requires Valid(a) && Valid(b)
    ensures Valid(a + b)
    decreases |a|
  {
    hide Character;
    if a == [] {
      assert a + b == b;
    } else {
      var n := Character(a);
      CharacterPrefix(a, b);
      ValidJoins(a[n..], b);
      assert (a + b)[n..] == a[n..] + b;
    }
  }

  /** ASCII text is valid. */
  lemma {:induction false} AsciiValid(s: seq<byte>)
    requires forall i :: 0 <= i < |s| ==> s[i] < 0x80
    ensures Valid(s)
    decreases |s|
  {
    if s != [] { AsciiValid(s[1..]); }
  }
  // ---- against the code points ------------------------------------------------------

  /** A code point that is no surrogate. */
  predicate Scalar(c: nat) { c < 0xD800 || 0xE000 <= c < 0x11_0000 }

  /** The octets of a code point: the table of section 3. */
  function Octets(c: nat): (s: seq<byte>)
    requires Scalar(c)
    ensures 1 <= |s| <= 4
  {
    if c < 0x80 then [c]
    else if c < 0x800 then [0xC0 + c / 64, 0x80 + c % 64]
    else if c < 0x1_0000 then [0xE0 + c / 4096, 0x80 + c / 64 % 64, 0x80 + c % 64]
    else [0xF0 + c / 262144, 0x80 + c / 4096 % 64, 0x80 + c / 64 % 64, 0x80 + c % 64]
  }

  predicate Scalars(cs: seq<nat>) { forall k :: 0 <= k < |cs| ==> Scalar(cs[k]) }

  function Spelled(cs: seq<nat>): seq<byte>
    requires Scalars(cs)
  {
    if cs == [] then [] else Octets(cs[0]) + Spelled(cs[1..])
  }

  lemma OctetsAre(c: nat, rest: seq<byte>)
    requires Scalar(c)
    ensures Character(Octets(c) + rest) == |Octets(c)|
  {}

  lemma Low64(x: nat, y: nat)
    requires y < 64
    ensures (x * 64 + y) / 64 == x && (x * 64 + y) % 64 == y
  {}

  lemma Shift64(v: nat)
    ensures v / 4096 == v / 64 / 64
  {}

  lemma Shift64Twice(v: nat)
    ensures v / 262144 == v / 64 / 4096
  {}

  /** Base 64 digits come back. */
  lemma Digits64(a: nat, b: nat, c: nat, d: nat)
    requires b < 64 && c < 64 && d < 64
    ensures var v := a * 262144 + b * 4096 + c * 64 + d;
      v / 262144 == a && v / 4096 % 64 == b && v / 64 % 64 == c && v % 64 == d && (a == 0 ==> v / 4096 == b) && (a == b == 0 ==> v / 64 == c)
  {
    var z := a * 64 + b;
    var y := z * 64 + c;
    var v := y * 64 + d;
    assert v == a * 262144 + b * 4096 + c * 64 + d;
    Low64(y, d);
    Low64(z, c);
    Low64(a, b);
    Shift64(v);
    Shift64(y);
    Shift64Twice(v);
  }

  lemma TwoOctets(s: seq<byte>) returns (c: nat)
    requires Character(s) == 2
    ensures Scalar(c) && Octets(c) == s[..2]
  {
    Digits64(0, 0, s[0] as int - 0xC0, s[1] as int - 0x80);
    c := (s[0] as int - 0xC0) * 64 + (s[1] as int - 0x80);
  }

  lemma ThreeOctets(s: seq<byte>) returns (c: nat)
    requires Character(s) == 3
    ensures Scalar(c) && Octets(c) == s[..3]
  {
    Digits64(0, s[0] as int - 0xE0, s[1] as int - 0x80, s[2] as int - 0x80);
    c := (s[0] as int - 0xE0) * 4096 + (s[1] as int - 0x80) * 64 + (s[2] as int - 0x80);
  }

  lemma FourOctets(s: seq<byte>) returns (c: nat)
    requires Character(s) == 4
    ensures Scalar(c) && Octets(c) == s[..4]
  {
    Digits64(s[0] as int - 0xF0, s[1] as int - 0x80, s[2] as int - 0x80, s[3] as int - 0x80);
    c := (s[0] as int - 0xF0) * 262144 + (s[1] as int - 0x80) * 4096 + (s[2] as int - 0x80) * 64 + (s[3] as int - 0x80);
  }

  /** The code point whose octets s starts with. */
  lemma PointOf(s: seq<byte>) returns (c: nat)
    requires Character(s) > 0
    ensures Scalar(c) && Octets(c) == s[..Character(s)]
  {
    CharacterSpan(s);
    hide Character;
    if Character(s) == 1 { c := s[0]; }
    else if Character(s) == 2 { c := TwoOctets(s); }
    else if Character(s) == 3 { c := ThreeOctets(s); }
    else { c := FourOctets(s); }
  }

  lemma CharacterSpan(s: seq<byte>)
    ensures Character(s) <= 4 && (Character(s) == 1 ==> s[0] < 0x80)
  {}

  lemma {:induction false} SpelledValid(cs: seq<nat>)
    requires Scalars(cs)
    ensures Valid(Spelled(cs))
    decreases |cs|
  {
    hide Character, Octets;
    if cs != [] {
      SpelledValid(cs[1..]);
      OctetsAre(cs[0], Spelled(cs[1..]));
      assert (Octets(cs[0]) + Spelled(cs[1..]))[|Octets(cs[0])|..] == Spelled(cs[1..]);
    }
  }

  lemma {:induction false} ValidSpells(s: seq<byte>) returns (cs: seq<nat>)
    requires Valid(s)
    ensures Scalars(cs) && Spelled(cs) == s
    decreases |s|
  {
    hide Character, Octets;
    cs := [];
    if s != [] {
      var c := PointOf(s);
      var n := Character(s);
      var rest := ValidSpells(s[n..]);
      cs := [c] + rest;
      assert cs[1..] == rest && s == s[..n] + s[n..];
    }
  }

  /** The validator accepts exactly the strings that spell code points outside the surrogates. */
  lemma ValidExactly(s: seq<byte>)
    ensures Valid(s) <==> exists cs :: Scalars(cs) && Spelled(cs) == s
  {
    hide Valid, Spelled, Scalars;
    if Valid(s) { var cs := ValidSpells(s); }
    forall cs | Scalars(cs) && Spelled(cs) == s ensures Valid(s) { SpelledValid(cs); }
  }
}
