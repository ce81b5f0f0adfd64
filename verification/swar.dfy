/** Eight bytes in one word: the lane tests of the string, number and line scans. */
module Swar {
  import opened Words

  const LANES: bv64 := 0x8080_8080_8080_8080

  /** A little-endian load of eight bytes. */
  function Word8(b0: bv8, b1: bv8, b2: bv8, b3: bv8, b4: bv8, b5: bv8, b6: bv8, b7: bv8): bv64 {
    (b0 as bv64) | ((b1 as bv64) << 8) | ((b2 as bv64) << 16) | ((b3 as bv64) << 24) |
    ((b4 as bv64) << 32) | ((b5 as bv64) << 40) | ((b6 as bv64) << 48) | ((b7 as bv64) << 56)
  }

  function Load(p: seq<bv8>, j: nat): bv64
    requires j + 8 <= |p|
  {
    Word8(p[j], p[j + 1], p[j + 2], p[j + 3], p[j + 4], p[j + 5], p[j + 6], p[j + 7])
  }

  /** The lane of the lowest flag of a flag word: `ctz(f) >> 3`. */
  function LaneOf(f: bv64): (lane: nat)
    ensures lane < 8
  {
    if f & 0x80 != 0 then 0 else if f & 0x8000 != 0 then 1 else if f & 0x80_0000 != 0 then 2
    else if f & 0x8000_0000 != 0 then 3 else if f & 0x80_0000_0000 != 0 then 4
    else if f & 0x8000_0000_0000 != 0 then 5 else if f & 0x80_0000_0000_0000 != 0 then 6 else 7
  }

  /** Where a flag word has a set bit, it is the top bit of a lane, and its lane is flagged. */
  lemma FlagPosition(f: bv64, s: bv8)
    requires s < 64 && f & !LANES == 0 && At(f, s)
    ensures s == 7 || s == 15 || s == 23 || s == 31 || s == 39 || s == 47 || s == 55 || s == 63
    ensures s == 7 ==> f & 0x80 != 0
    ensures s == 15 ==> f & 0x8000 != 0
    ensures s == 23 ==> f & 0x80_0000 != 0
    ensures s == 31 ==> f & 0x8000_0000 != 0
    ensures s == 39 ==> f & 0x80_0000_0000 != 0
    ensures s == 47 ==> f & 0x8000_0000_0000 != 0
    ensures s == 55 ==> f & 0x80_0000_0000_0000 != 0
  {}

  lemma LaneSet(f: bv64)
    ensures f & 0x80 != 0 ==> At(f, 7)
    ensures f & 0x8000 != 0 ==> At(f, 15)
    ensures f & 0x80_0000 != 0 ==> At(f, 23)
    ensures f & 0x8000_0000 != 0 ==> At(f, 31)
    ensures f & 0x80_0000_0000 != 0 ==> At(f, 39)
    ensures f & 0x8000_0000_0000 != 0 ==> At(f, 47)
    ensures f & 0x80_0000_0000_0000 != 0 ==> At(f, 55)
  {}

  lemma PosOf(s: bv8, k: nat)
    requires k <= 64 && s as nat == k
    ensures Pos(k) == s
  {
    PosValue(k);
    SameOrder(Pos(k), s);
    SameOrder(s, Pos(k));
  }

  lemma NotBelow(f: bv64, c: nat, k: nat, s: bv8)
    requires f != 0 && c == Ctz(f) && k < 64 && s as nat == k && k < c
    ensures s < 64 && !At(f, s)
  {
    hide At;
    PosOf(s, k);
    PosFits(k);
    assert !Bit(f, k);
  }

  lemma CtzLane(f: bv64)
    requires f != 0 && f & !LANES == 0
    ensures Ctz(f) / 8 == LaneOf(f)
  {
    hide At, Ctz, LaneOf;
    var c := Ctz(f);
    PosFits(c);
    PosValue(c);
    assert At(f, Pos(c));
    FlagPosition(f, Pos(c));
    LaneSet(f);
    if c > 7 { NotBelow(f, c, 7, 7); }
    if c > 15 { NotBelow(f, c, 15, 15); }
    if c > 23 { NotBelow(f, c, 23, 23); }
    if c > 31 { NotBelow(f, c, 31, 31); }
    if c > 39 { NotBelow(f, c, 39, 39); }
    if c > 47 { NotBelow(f, c, 47, 47); }
    if c > 55 { NotBelow(f, c, 55, 55); }
    LaneByFlags(f, c);
  }

  lemma LaneByFlags(f: bv64, c: nat)
    requires c == 7 || c == 15 || c == 23 || c == 31 || c == 39 || c == 47 || c == 55 || c == 63
    requires c > 7 ==> f & 0x80 == 0
    requires c > 15 ==> f & 0x8000 == 0
    requires c > 23 ==> f & 0x80_0000 == 0
    requires c > 31 ==> f & 0x8000_0000 == 0
    requires c > 39 ==> f & 0x80_0000_0000 == 0
    requires c > 47 ==> f & 0x8000_0000_0000 == 0
    requires c > 55 ==> f & 0x80_0000_0000_0000 == 0
    requires c == 7 ==> f & 0x80 != 0
    requires c == 15 ==> f & 0x8000 != 0
    requires c == 23 ==> f & 0x80_0000 != 0
    requires c == 31 ==> f & 0x8000_0000 != 0
    requires c == 39 ==> f & 0x80_0000_0000 != 0
    requires c == 47 ==> f & 0x8000_0000_0000 != 0
    requires c == 55 ==> f & 0x80_0000_0000_0000 != 0
    ensures LaneOf(f) == c / 8
  {}

  // ---- the string round of the tape walk ----------------------------------------------

  /** The subtract-based zero test: exact up to the lowest zero byte. */
  function ZeroFlags(x: bv64): bv64 { (x - 0x0101_0101_0101_0101) & !x & LANES }

  function QuoteFlags(w: bv64): bv64 { ZeroFlags(w ^ 0x2222_2222_2222_2222) }

  /** Backslashes, controls and non-ASCII bytes. */
  function BadFlags(w: bv64): bv64 {
    ZeroFlags(w ^ 0x5C5C_5C5C_5C5C_5C5C) | ((w - 0x2020_2020_2020_2020) & !w & LANES) | (w & LANES)
  }

  /** The lowest quote flag has no bad flag below it. */
  predicate Closing(w: bv64) { QuoteFlags(w) != 0 && BadFlags(w) & (QuoteFlags(w) - 1) == 0 }

  predicate Quiet(w: bv64) { QuoteFlags(w) | BadFlags(w) == 0 }

  function CloseLane(w: bv64): nat
    requires Closing(w)
  {
    Ctz(QuoteFlags(w)) / 8
  }

  /** A byte that a clean string holds as it is. */
  predicate Plain(b: bv8) { b != 0x22 && b != 0x5C && 0x20 <= b < 0x80 }

  lemma NoFlags8(b0: bv8, b1: bv8, b2: bv8, b3: bv8, b4: bv8, b5: bv8, b6: bv8, b7: bv8, w: bv64)
    requires w == Word8(b0, b1, b2, b3, b4, b5, b6, b7) && QuoteFlags(w) | BadFlags(w) == 0
    ensures Plain(b0) && Plain(b1) && Plain(b2) && Plain(b3) && Plain(b4) && Plain(b5) && Plain(b6) && Plain(b7)
  {}

  /** The lowest quote flag is the first quote, and nothing bad stands before it. */
  lemma QuoteLane(b0: bv8, b1: bv8, b2: bv8, b3: bv8, b4: bv8, b5: bv8, b6: bv8, b7: bv8, w: bv64)
    requires w == Word8(b0, b1, b2, b3, b4, b5, b6, b7) && QuoteFlags(w) != 0 && BadFlags(w) & (QuoteFlags(w) - 1) == 0
    ensures var lane := LaneOf(QuoteFlags(w));
      && (lane > 0 ==> Plain(b0)) && (lane == 0 ==> b0 == 0x22)
      && (lane > 1 ==> Plain(b1)) && (lane == 1 ==> b1 == 0x22)
      && (lane > 2 ==> Plain(b2)) && (lane == 2 ==> b2 == 0x22)
      && (lane > 3 ==> Plain(b3)) && (lane == 3 ==> b3 == 0x22)
      && (lane > 4 ==> Plain(b4)) && (lane == 4 ==> b4 == 0x22)
      && (lane > 5 ==> Plain(b5)) && (lane == 5 ==> b5 == 0x22)
      && (lane > 6 ==> Plain(b6)) && (lane == 6 ==> b6 == 0x22)
      && (lane > 7 ==> Plain(b7)) && (lane == 7 ==> b7 == 0x22)
  {}

  /** A word without flags: eight plain bytes. */
  lemma NoFlags(p: seq<bv8>, j: nat)
    requires j + 8 <= |p| && Quiet(Load(p, j))
    ensures forall x :: j <= x < j + 8 ==> Plain(p[x])
  {
    hide Plain, QuoteFlags, BadFlags, Word8;
    NoFlags8(p[j], p[j + 1], p[j + 2], p[j + 3], p[j + 4], p[j + 5], p[j + 6], p[j + 7], Load(p, j));
    forall x | j <= x < j + 8 ensures Plain(p[x]) {
      var k := x - j;
      assert k == 0 || k == 1 || k == 2 || k == 3 || k == 4 || k == 5 || k == 6 || k == 7;
    }
  }

  /** A word whose lowest quote flag has no bad flag at or below the bits under it: the string closes there. */
  lemma FirstQuote(p: seq<bv8>, j: nat)
    requires j + 8 <= |p| && Closing(Load(p, j))
    ensures var lane := CloseLane(Load(p, j));
      lane < 8 && p[j + lane] == 0x22 && forall x :: j <= x < j + lane ==> Plain(p[x])
  {
    hide Plain, QuoteFlags, BadFlags, Word8, LaneOf, Ctz;
    var w := Load(p, j);
    FlagsInLanes(w);
    CtzLane(QuoteFlags(w));
    QuoteLane(p[j], p[j + 1], p[j + 2], p[j + 3], p[j + 4], p[j + 5], p[j + 6], p[j + 7], w);
    var lane := LaneOf(QuoteFlags(w));
    assert lane == 0 || lane == 1 || lane == 2 || lane == 3 || lane == 4 || lane == 5 || lane == 6 || lane == 7;
    forall x | j <= x < j + lane ensures Plain(p[x]) {
      var k := x - j;
      assert k == 0 || k == 1 || k == 2 || k == 3 || k == 4 || k == 5 || k == 6;
    }
  }

  lemma FlagsInLanes(w: bv64)
    ensures QuoteFlags(w) & !LANES == 0
  {}

  // ---- the digit run ----------------------------------------------------------------------

  function NonDigitFlags(w: bv64): bv64 {
    ((w + 0x4646_4646_4646_4646) & LANES) | (((w | LANES) - 0xB0B0_B0B0_B0B0_B0B0) & LANES) | (w & LANES)
  }

  predicate DigitByte(b: bv8) { 0x30 <= b <= 0x39 }

  lemma AllDigits8(b0: bv8, b1: bv8, b2: bv8, b3: bv8, b4: bv8, b5: bv8, b6: bv8, b7: bv8, w: bv64)
    requires w == Word8(b0, b1, b2, b3, b4, b5, b6, b7) && NonDigitFlags(w) == 0
    ensures DigitByte(b0) && DigitByte(b1) && DigitByte(b2) && DigitByte(b3) && DigitByte(b4) && DigitByte(b5) && DigitByte(b6) && DigitByte(b7)
  {}

  lemma DigitLane(b0: bv8, b1: bv8, b2: bv8, b3: bv8, b4: bv8, b5: bv8, b6: bv8, b7: bv8, w: bv64)
    requires w == Word8(b0, b1, b2, b3, b4, b5, b6, b7) && NonDigitFlags(w) != 0
    ensures NonDigitFlags(w) & !LANES == 0
    ensures var lane := LaneOf(NonDigitFlags(w));
      && (lane > 0 ==> DigitByte(b0)) && (lane == 0 ==> !DigitByte(b0))
      && (lane > 1 ==> DigitByte(b1)) && (lane == 1 ==> !DigitByte(b1))
      && (lane > 2 ==> DigitByte(b2)) && (lane == 2 ==> !DigitByte(b2))
      && (lane > 3 ==> DigitByte(b3)) && (lane == 3 ==> !DigitByte(b3))
      && (lane > 4 ==> DigitByte(b4)) && (lane == 4 ==> !DigitByte(b4))
      && (lane > 5 ==> DigitByte(b5)) && (lane == 5 ==> !DigitByte(b5))
      && (lane > 6 ==> DigitByte(b6)) && (lane == 6 ==> !DigitByte(b6))
      && (lane > 7 ==> DigitByte(b7)) && (lane == 7 ==> !DigitByte(b7))
  {}

  lemma AllDigits(p: seq<bv8>, j: nat)
    requires j + 8 <= |p| && NonDigitFlags(Load(p, j)) == 0
    ensures forall x :: j <= x < j + 8 ==> DigitByte(p[x])
  {
    hide DigitByte, NonDigitFlags, Word8;
    AllDigits8(p[j], p[j + 1], p[j + 2], p[j + 3], p[j + 4], p[j + 5], p[j + 6], p[j + 7], Load(p, j));
    forall x | j <= x < j + 8 ensures DigitByte(p[x]) {
      var k := x - j;
      assert k == 0 || k == 1 || k == 2 || k == 3 || k == 4 || k == 5 || k == 6 || k == 7;
    }
  }

  /** The lowest flag is the first byte that is no digit. */
  lemma FirstNonDigit(p: seq<bv8>, j: nat)
    requires j + 8 <= |p| && NonDigitFlags(Load(p, j)) != 0
    ensures var lane := Ctz(NonDigitFlags(Load(p, j))) / 8;
      lane < 8 && !DigitByte(p[j + lane]) && forall x :: j <= x < j + lane ==> DigitByte(p[x])
  {
    hide DigitByte, NonDigitFlags, Word8, LaneOf, Ctz;
    var w := Load(p, j);
    DigitLane(p[j], p[j + 1], p[j + 2], p[j + 3], p[j + 4], p[j + 5], p[j + 6], p[j + 7], w);
    CtzLane(NonDigitFlags(w));
    var lane := LaneOf(NonDigitFlags(w));
    assert lane == 0 || lane == 1 || lane == 2 || lane == 3 || lane == 4 || lane == 5 || lane == 6 || lane == 7;
    forall x | j <= x < j + lane ensures DigitByte(p[x]) {
      var k := x - j;
      assert k == 0 || k == 1 || k == 2 || k == 3 || k == 4 || k == 5 || k == 6;
    }
  }

  // ---- the content sweep ------------------------------------------------------------------

  /** Controls and non-ASCII bytes. */
  function SweepFlags(w: bv64): bv64 { ((w - 0x2020_2020_2020_2020) & !w & LANES) | (w & LANES) }

  predicate Swept(b: bv8) { 0x20 <= b < 0x80 }

  lemma Sweep8(b0: bv8, b1: bv8, b2: bv8, b3: bv8, b4: bv8, b5: bv8, b6: bv8, b7: bv8, w: bv64)
    requires w == Word8(b0, b1, b2, b3, b4, b5, b6, b7)
    ensures SweepFlags(w) & !LANES == 0
    ensures SweepFlags(w) == 0 ==> Swept(b0) && Swept(b1) && Swept(b2) && Swept(b3) && Swept(b4) && Swept(b5) && Swept(b6) && Swept(b7)
    ensures SweepFlags(w) != 0 ==>
      var lane := LaneOf(SweepFlags(w));
      && (lane > 0 ==> Swept(b0)) && (lane == 0 ==> !Swept(b0))
      && (lane > 1 ==> Swept(b1)) && (lane == 1 ==> !Swept(b1))
      && (lane > 2 ==> Swept(b2)) && (lane == 2 ==> !Swept(b2))
      && (lane > 3 ==> Swept(b3)) && (lane == 3 ==> !Swept(b3))
      && (lane > 4 ==> Swept(b4)) && (lane == 4 ==> !Swept(b4))
      && (lane > 5 ==> Swept(b5)) && (lane == 5 ==> !Swept(b5))
      && (lane > 6 ==> Swept(b6)) && (lane == 6 ==> !Swept(b6))
      && (lane > 7 ==> Swept(b7)) && (lane == 7 ==> !Swept(b7))
  {}

  /** A flagged word holds a bad byte, and the first one is found; an unflagged word holds none. */
  lemma SweepWord(p: seq<bv8>, j: nat) returns (lane: nat)
    requires j + 8 <= |p|
    ensures SweepFlags(Load(p, j)) == 0 ==> forall x :: j <= x < j + 8 ==> Swept(p[x])
    ensures SweepFlags(Load(p, j)) != 0 ==>
      lane < 8 && !Swept(p[j + lane]) && forall x :: j <= x < j + lane ==> Swept(p[x])
  {
    hide Swept, SweepFlags, Word8, LaneOf;
    var w := Load(p, j);
    Sweep8(p[j], p[j + 1], p[j + 2], p[j + 3], p[j + 4], p[j + 5], p[j + 6], p[j + 7], w);
    lane := if SweepFlags(w) == 0 then 8 else LaneOf(SweepFlags(w));
    assert lane == 0 || lane == 1 || lane == 2 || lane == 3 || lane == 4 || lane == 5 || lane == 6 || lane == 7 || lane == 8;
    forall x | j <= x < j + lane ensures Swept(p[x]) {
      var k := x - j;
      assert k == 0 || k == 1 || k == 2 || k == 3 || k == 4 || k == 5 || k == 6 || k == 7;
    }
  }
}
