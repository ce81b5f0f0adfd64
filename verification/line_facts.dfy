/** The line sweep: where a line breaks, where its text begins, and where the first ':' or '#' of it stands. */
module LineFacts {
  import opened Wrappers
  import opened Words
  import opened Swar

  // ---- the exact lane test --------------------------------------------------------------

  const LOW: bv64 := 0x7F7F_7F7F_7F7F_7F7F
  const BREAK_N: bv64 := 0x0A0A_0A0A_0A0A_0A0A
  const BREAK_R: bv64 := 0x0D0D_0D0D_0D0D_0D0D
  const SPACES: bv64 := 0x2020_2020_2020_2020
  const COLONS: bv64 := 0x3A3A_3A3A_3A3A_3A3A
  const HASHES: bv64 := 0x2323_2323_2323_2323

  /** yep_swar_eq8. */
  function Eq8(x: bv64, k: bv64): bv64 {
    var v := x ^ k;
    !(((v & LOW) + LOW) | v) & LANES
  }

  function Mask(i: nat): (m: bv64)
    requires i < 8
    ensures OneBit(m)
  {
    if i == 0 then 0x80 else if i == 1 then 0x8000 else if i == 2 then 0x80_0000 else if i == 3 then 0x8000_0000
    else if i == 4 then 0x80_0000_0000 else if i == 5 then 0x8000_0000_0000 else if i == 6 then 0x80_0000_0000_0000
    else 0x8000_0000_0000_0000
  }

  predicate OneBit(m: bv64) { m != 0 && m & (m - 1) == 0 }
  predicate Set(f: bv64, m: bv64) { f & m != 0 }

  /** The flag of lane i. */
  predicate Flag(f: bv64, i: nat)
    requires i < 8
  {
    Set(f, Mask(i))
  }

  /** Byte i of a word. */
  function Byte(x: bv64, i: nat): bv8
    requires i < 8
  {
    if i == 0 then (x & 0xFF) as bv8
    else if i == 1 then ((x >> 8) & 0xFF) as bv8
    else if i == 2 then ((x >> 16) & 0xFF) as bv8
    else if i == 3 then ((x >> 24) & 0xFF) as bv8
    else if i == 4 then ((x >> 32) & 0xFF) as bv8
    else if i == 5 then ((x >> 40) & 0xFF) as bv8
    else if i == 6 then ((x >> 48) & 0xFF) as bv8
    else ((x >> 56) & 0xFF) as bv8
  }

  /** Lane by lane the test is exact: no carry crosses from one byte to the next. */
  lemma LaneTest0(x: bv64, k: bv64)
    ensures Set(Eq8(x, k), 0x80) <==> (x & 0xFF) as bv8 == (k & 0xFF) as bv8
  {}

  lemma LaneTest1(x: bv64, k: bv64)
    ensures Set(Eq8(x, k), 0x8000) <==> ((x >> 8) & 0xFF) as bv8 == ((k >> 8) & 0xFF) as bv8
  {}

  lemma LaneTest2(x: bv64, k: bv64)
    ensures Set(Eq8(x, k), 0x80_0000) <==> ((x >> 16) & 0xFF) as bv8 == ((k >> 16) & 0xFF) as bv8
  {}

  lemma LaneTest3(x: bv64, k: bv64)
    ensures Set(Eq8(x, k), 0x8000_0000) <==> ((x >> 24) & 0xFF) as bv8 == ((k >> 24) & 0xFF) as bv8
  {}

  lemma LaneTest4(x: bv64, k: bv64)
    ensures Set(Eq8(x, k), 0x80_0000_0000) <==> ((x >> 32) & 0xFF) as bv8 == ((k >> 32) & 0xFF) as bv8
  {}

  lemma LaneTest5(x: bv64, k: bv64)
    ensures Set(Eq8(x, k), 0x8000_0000_0000) <==> ((x >> 40) & 0xFF) as bv8 == ((k >> 40) & 0xFF) as bv8
  {}

  lemma LaneTest6(x: bv64, k: bv64)
    ensures Set(Eq8(x, k), 0x80_0000_0000_0000) <==> ((x >> 48) & 0xFF) as bv8 == ((k >> 48) & 0xFF) as bv8
  {}

  lemma LaneTest7(x: bv64, k: bv64)
    ensures Set(Eq8(x, k), 0x8000_0000_0000_0000) <==> ((x >> 56) & 0xFF) as bv8 == ((k >> 56) & 0xFF) as bv8
  {}

  lemma LaneTest(x: bv64, k: bv64, i: nat)
    requires i < 8
    ensures Flag(Eq8(x, k), i) <==> Byte(x, i) == Byte(k, i)
  {
    hide Eq8, Set;
    if i == 0 { LaneTest0(x, k); }
    else if i == 1 { LaneTest1(x, k); }
    else if i == 2 { LaneTest2(x, k); }
    else if i == 3 { LaneTest3(x, k); }
    else if i == 4 { LaneTest4(x, k); }
    else if i == 5 { LaneTest5(x, k); }
    else if i == 6 { LaneTest6(x, k); }
    else { LaneTest7(x, k); }
  }

  lemma ByteOf0(b0: bv8, b1: bv8, b2: bv8, b3: bv8, b4: bv8, b5: bv8, b6: bv8, b7: bv8, x: bv64)
    requires x == Word8(b0, b1, b2, b3, b4, b5, b6, b7)
    ensures (x & 0xFF) as bv8 == b0
  {}

  lemma ByteOf1(b0: bv8, b1: bv8, b2: bv8, b3: bv8, b4: bv8, b5: bv8, b6: bv8, b7: bv8, x: bv64)
    requires x == Word8(b0, b1, b2, b3, b4, b5, b6, b7)
    ensures ((x >> 8) & 0xFF) as bv8 == b1
  {}

  lemma ByteOf2(b0: bv8, b1: bv8, b2: bv8, b3: bv8, b4: bv8, b5: bv8, b6: bv8, b7: bv8, x: bv64)
    requires x == Word8(b0, b1, b2, b3, b4, b5, b6, b7)
    ensures ((x >> 16) & 0xFF) as bv8 == b2
  {}

  lemma ByteOf3(b0: bv8, b1: bv8, b2: bv8, b3: bv8, b4: bv8, b5: bv8, b6: bv8, b7: bv8, x: bv64)
    requires x == Word8(b0, b1, b2, b3, b4, b5, b6, b7)
    ensures ((x >> 24) & 0xFF) as bv8 == b3
  {}

  lemma ByteOf4(b0: bv8, b1: bv8, b2: bv8, b3: bv8, b4: bv8, b5: bv8, b6: bv8, b7: bv8, x: bv64)
    requires x == Word8(b0, b1, b2, b3, b4, b5, b6, b7)
    ensures ((x >> 32) & 0xFF) as bv8 == b4
  {}

  lemma ByteOf5(b0: bv8, b1: bv8, b2: bv8, b3: bv8, b4: bv8, b5: bv8, b6: bv8, b7: bv8, x: bv64)
    requires x == Word8(b0, b1, b2, b3, b4, b5, b6, b7)
    ensures ((x >> 40) & 0xFF) as bv8 == b5
  {}

  lemma ByteOf6(b0: bv8, b1: bv8, b2: bv8, b3: bv8, b4: bv8, b5: bv8, b6: bv8, b7: bv8, x: bv64)
    requires x == Word8(b0, b1, b2, b3, b4, b5, b6, b7)
    ensures ((x >> 48) & 0xFF) as bv8 == b6
  {}

  lemma ByteOf7(b0: bv8, b1: bv8, b2: bv8, b3: bv8, b4: bv8, b5: bv8, b6: bv8, b7: bv8, x: bv64)
    requires x == Word8(b0, b1, b2, b3, b4, b5, b6, b7)
    ensures ((x >> 56) & 0xFF) as bv8 == b7
  {}

  /** Eight bytes as one word. */
  function WordOf(c: seq<bv8>): bv64
    requires |c| == 8
  {
    Word8(c[0], c[1], c[2], c[3], c[4], c[5], c[6], c[7])
  }

  lemma BytesOf(c: seq<bv8>, i: nat)
    requires |c| == 8 && i < 8
    ensures Byte(WordOf(c), i) == c[i]
  {
    hide Word8;
    var x := WordOf(c);
    if i == 0 { ByteOf0(c[0], c[1], c[2], c[3], c[4], c[5], c[6], c[7], x); }
    else if i == 1 { ByteOf1(c[0], c[1], c[2], c[3], c[4], c[5], c[6], c[7], x); }
    else if i == 2 { ByteOf2(c[0], c[1], c[2], c[3], c[4], c[5], c[6], c[7], x); }
    else if i == 3 { ByteOf3(c[0], c[1], c[2], c[3], c[4], c[5], c[6], c[7], x); }
    else if i == 4 { ByteOf4(c[0], c[1], c[2], c[3], c[4], c[5], c[6], c[7], x); }
    else if i == 5 { ByteOf5(c[0], c[1], c[2], c[3], c[4], c[5], c[6], c[7], x); }
    else if i == 6 { ByteOf6(c[0], c[1], c[2], c[3], c[4], c[5], c[6], c[7], x); }
    else { ByteOf7(c[0], c[1], c[2], c[3], c[4], c[5], c[6], c[7], x); }
  }

  lemma FlagsOnly(x: bv64, k: bv64)
    ensures Flags(Eq8(x, k))
  {}

  lemma Eq8Lane(c: seq<bv8>, k: bv8, ks: bv64, i: nat)
    requires |c| == 8 && ks == WordOf([k, k, k, k, k, k, k, k]) && i < 8
    ensures Flag(Eq8(WordOf(c), ks), i) <==> c[i] == k
  {
    hide Eq8, WordOf, Byte, Flag;
    LaneTest(WordOf(c), ks, i);
    BytesOf(c, i);
    BytesOf([k, k, k, k, k, k, k, k], i);
    SameEight(k, i);
  }

  lemma SameEight(k: bv8, i: nat)
    requires i < 8
    ensures [k, k, k, k, k, k, k, k][i] == k
  {
  }

  /** yep_swar_eq8 flags exactly the lanes that hold the byte. */
  lemma Eq8Exact(c: seq<bv8>, k: bv8, ks: bv64)
    requires |c| == 8 && ks == WordOf([k, k, k, k, k, k, k, k])
    ensures Flags(Eq8(WordOf(c), ks))
    ensures forall i :: 0 <= i < 8 ==> (Flag(Eq8(WordOf(c), ks), i) <==> c[i] == k)
  {
    FlagsOnly(WordOf(c), ks);
    hide Eq8, WordOf, Flag, Flags;
    forall i | 0 <= i < 8 ensures Flag(Eq8(WordOf(c), ks), i) <==> c[i] == k { Eq8Lane(c, k, ks, i); }
  }

  lemma Repeated()
    ensures BREAK_N == WordOf([0x0A, 0x0A, 0x0A, 0x0A, 0x0A, 0x0A, 0x0A, 0x0A])
    ensures BREAK_R == WordOf([0x0D, 0x0D, 0x0D, 0x0D, 0x0D, 0x0D, 0x0D, 0x0D])
    ensures SPACES == WordOf([0x20, 0x20, 0x20, 0x20, 0x20, 0x20, 0x20, 0x20])
    ensures COLONS == WordOf([0x3A, 0x3A, 0x3A, 0x3A, 0x3A, 0x3A, 0x3A, 0x3A])
    ensures HASHES == WordOf([0x23, 0x23, 0x23, 0x23, 0x23, 0x23, 0x23, 0x23])
  {}

  // ---- flag words ---------------------------------------------------------------------------

  function Or(f: bv64, g: bv64): bv64 { f | g }
  function And(f: bv64, g: bv64): bv64 { f & g }
  function Not(f: bv64): bv64 { !f }

  lemma FlagOr(f: bv64, g: bv64, i: nat)
    requires i < 8
    ensures Flag(Or(f, g), i) <==> Flag(f, i) || Flag(g, i)
  {
    hide Mask, Set, OneBit;
    OrBit(f, g, Mask(i));
  }

  lemma OrBit(f: bv64, g: bv64, m: bv64)
    requires OneBit(m)
    ensures Set(f | g, m) <==> Set(f, m) || Set(g, m)
  {
    OrSplits(f, g, m);
    EitherSet(f & m, g & m);
  }

  lemma OrSplits(f: bv64, g: bv64, m: bv64)
    ensures (f | g) & m == (f & m) | (g & m)
  {}

  lemma EitherSet(a: bv64, b: bv64)
    ensures a | b != 0 <==> a != 0 || b != 0
  {}

  lemma FlagAnd(f: bv64, g: bv64, i: nat)
    requires i < 8
    ensures Flag(And(f, g), i) <==> Flag(f, i) && Flag(g, i)
  {
    hide Mask, Set, OneBit;
    AndBit(f, g, Mask(i));
  }

  lemma AndBit(f: bv64, g: bv64, m: bv64)
    requires OneBit(m)
    ensures Set(f & g, m) <==> Set(f, m) && Set(g, m)
  {}

  lemma FlagNot(f: bv64, i: nat)
    requires i < 8
    ensures Flag(Not(f), i) <==> !Flag(f, i)
  {
    hide Mask, Set, OneBit;
    NotBit(f, Mask(i));
  }

  lemma NotBit(f: bv64, m: bv64)
    requires OneBit(m)
    ensures Set(!f, m) <==> !Set(f, m)
  {}

  predicate Flags(f: bv64) { f & !LANES == 0 }

  /** The lowest flag of a flag word. */
  lemma LowestFlag(f: bv64)
    requires Flags(f)
    ensures f == 0 ==> forall i :: 0 <= i < 8 ==> !Flag(f, i)
    ensures f != 0 ==> Ctz(f) / 8 == LaneOf(f) && Flag(f, LaneOf(f)) && forall i :: 0 <= i < LaneOf(f) ==> !Flag(f, i)
  {
    if f != 0 { CtzLane(f); }
    hide Ctz;
    LowestLane(f);
  }

  lemma LowestLane(f: bv64)
    requires f & !LANES == 0
    ensures f != 0 ==> Flag(f, LaneOf(f)) && forall i :: 0 <= i < LaneOf(f) ==> !Flag(f, i)
  {
    if f & 0x80 == 0 && f & 0x8000 == 0 && f & 0x80_0000 == 0 && f & 0x8000_0000 == 0 && f & 0x80_0000_0000 == 0
       && f & 0x8000_0000_0000 == 0 && f & 0x80_0000_0000_0000 == 0 { LastLane(f); }
  }

  lemma LastLane(f: bv64)
    requires f & !LANES == 0 && f & 0x80 == 0 && f & 0x8000 == 0 && f & 0x80_0000 == 0 && f & 0x8000_0000 == 0 && f & 0x80_0000_0000 == 0
    requires f & 0x8000_0000_0000 == 0 && f & 0x80_0000_0000_0000 == 0
    ensures f != 0 ==> f & 0x8000_0000_0000_0000 != 0
  {}

  /** The bits of the bytes that are there. */
  function ValidMask(avail: nat): bv64
    requires 1 <= avail <= 8
  {
    if avail == 8 then 0xFFFF_FFFF_FFFF_FFFF else if avail == 7 then 0xFF_FFFF_FFFF_FFFF else if avail == 6 then 0xFFFF_FFFF_FFFF
    else if avail == 5 then 0xFF_FFFF_FFFF else if avail == 4 then 0xFFFF_FFFF else if avail == 3 then 0xFF_FFFF
    else if avail == 2 then 0xFFFF else 0xFF
  }

  lemma ValidLanes(avail: nat, i: nat)
    requires 1 <= avail <= 8 && i < 8
    ensures Flag(ValidMask(avail), i) <==> i < avail
  {}

  /** Everything below the lowest break, or everything that is there. */
  function Room(br: bv64, valid: bv64): bv64 { And(And(if br != 0 then Below(br) else valid, LANES), valid) }

  function Below(br: bv64): bv64 { (br & (!br + 1)) - 1 }

  /** Below the lowest set bit, and nothing else. */
  lemma BelowLowest(br: bv64, i: nat)
    requires br != 0 && br & !LANES == 0 && i < 8
    ensures Flag(Below(br), i) <==> i < LaneOf(br)
  {
    assert i == 0 || i == 1 || i == 2 || i == 3 || i == 4 || i == 5 || i == 6 || i == 7;
  }

  lemma RoomLanes(br: bv64, avail: nat, i: nat)
    requires 1 <= avail <= 8 && Flags(br) && i < 8
    ensures Flag(Room(br, ValidMask(avail)), i) <==> i < avail && (br == 0 || i < LaneOf(br))
  {
    var valid := ValidMask(avail);
    ValidLanes(avail, i);
    if br != 0 { BelowLowest(br, i); }
    AllLanes(i);
    hide Flag, LaneOf, ValidMask, And, Below, Flags;
    var f := if br != 0 then Below(br) else valid;
    FlagAnd(f, LANES, i);
    FlagAnd(And(f, LANES), valid, i);
  }

  lemma AllLanes(i: nat)
    requires i < 8
    ensures Flag(LANES, i)
  {}

  // ---- one word of a line ---------------------------------------------------------------------

  predicate IsBreak(b: bv8) { b == 0x0A || b == 0x0D }
  predicate NotSpace(b: bv8) { b != 0x20 }
  predicate IsStop(b: bv8) { b == 0x3A || b == 0x23 }

  function Breaks(x: bv64, valid: bv64): bv64 { And(Or(Eq8(x, BREAK_N), Eq8(x, BREAK_R)), valid) }
  function Texts(x: bv64, room: bv64): bv64 { And(Not(Eq8(x, SPACES)), room) }
  function Stops(x: bv64, room: bv64): bv64 { And(Or(Eq8(x, COLONS), Eq8(x, HASHES)), room) }

  lemma OrFlags(f: bv64, g: bv64)
    requires Flags(f) && Flags(g)
    ensures Flags(Or(f, g))
  {}

  lemma AndFlags(f: bv64, g: bv64)
    requires Flags(f) || Flags(g)
    ensures Flags(And(f, g))
  {}

  lemma RoomFlags(br: bv64, v: bv64)
    ensures Flags(Room(br, v))
  {}

  lemma BreakLane(c: seq<bv8>, a: nat, i: nat)
    requires |c| == 8 && 1 <= a <= 8 && i < 8
    ensures var br := Breaks(WordOf(c), ValidMask(a));
      Flags(br) && (Flag(br, i) <==> i < a && IsBreak(c[i]))
  {
    Repeated();
    hide Eq8, WordOf, Flag, ValidMask, Flags, Or, And;
    var x := WordOf(c);
    var n, r := Eq8(x, BREAK_N), Eq8(x, BREAK_R);
    Eq8Exact(c, 0x0A, BREAK_N);
    Eq8Exact(c, 0x0D, BREAK_R);
    OrFlags(n, r);
    AndFlags(Or(n, r), ValidMask(a));
    FlagOr(n, r, i);
    FlagAnd(Or(n, r), ValidMask(a), i);
    ValidLanes(a, i);
  }

  /** The lanes in front of the first break. */
  predicate Ahead(br: bv64, a: nat, i: nat) { i < a && (br == 0 || i < LaneOf(br)) }

  lemma TextLane(c: seq<bv8>, a: nat, br: bv64, i: nat)
    requires |c| == 8 && 1 <= a <= 8 && Flags(br) && i < 8
    ensures var t := Texts(WordOf(c), Room(br, ValidMask(a)));
      Flags(t) && (Flag(t, i) <==> Ahead(br, a, i) && NotSpace(c[i]))
  {
    Repeated();
    hide Eq8, WordOf, Flag, ValidMask, Room, LaneOf, Flags, And, Not;
    var x, room := WordOf(c), Room(br, ValidMask(a));
    var f := Eq8(x, SPACES);
    Eq8Exact(c, 0x20, SPACES);
    RoomFlags(br, ValidMask(a));
    AndFlags(Not(f), room);
    FlagNot(f, i);
    FlagAnd(Not(f), room, i);
    RoomLanes(br, a, i);
  }

  lemma StopLane(c: seq<bv8>, a: nat, br: bv64, i: nat)
    requires |c| == 8 && 1 <= a <= 8 && Flags(br) && i < 8
    ensures var t := Stops(WordOf(c), Room(br, ValidMask(a)));
      Flags(t) && (Flag(t, i) <==> Ahead(br, a, i) && IsStop(c[i]))
  {
    Repeated();
    hide Eq8, WordOf, Flag, ValidMask, Room, LaneOf, Flags, Or, And;
    var x, room := WordOf(c), Room(br, ValidMask(a));
    var f, g := Eq8(x, COLONS), Eq8(x, HASHES);
    Eq8Exact(c, 0x3A, COLONS);
    Eq8Exact(c, 0x23, HASHES);
    RoomFlags(br, ValidMask(a));
    AndFlags(Or(f, g), room);
    FlagOr(f, g, i);
    FlagAnd(Or(f, g), room, i);
    RoomLanes(br, a, i);
  }

  // ---- places --------------------------------------------------------------------------------

  /** What a byte is looked at for. */
  datatype Test = Break | Text | Stop

  predicate Is(t: Test, b: bv8) {
    match t
    case Break => IsBreak(b)
    case Text => NotSpace(b)
    case Stop => IsStop(b)
  }

  /** The place of the lowest flag of the word loaded at i: `i + (ctz(f) >> 3)`. */
  function Place(f: bv64, i: nat): Option<nat> { if f == 0 then None else Some(i + Ctz(f) / 8) }

  /** at is the first of the places from i up to m that pass the test, if there is one. */
  predicate First(at: Option<nat>, s: seq<bv8>, i: nat, m: nat, t: Test)
    requires i <= m <= |s|
  {
    match at
    case None => forall j :: i <= j < m ==> !Is(t, s[j])
    case Some(r) => i <= r < m && Is(t, s[r]) && forall j :: i <= j < r ==> !Is(t, s[j])
  }

  /** A word whose flags are the test's, lane by lane, places the first. */
  lemma PlaceIsFirst(f: bv64, s: seq<bv8>, i: nat, m: nat, t: Test)
    requires i <= m <= |s| && Flags(f) && m <= i + 8
    requires forall l :: 0 <= l < 8 ==> (Flag(f, l) <==> i + l < m && Is(t, s[i + l]))
    ensures First(Place(f, i), s, i, m, t)
  {
    LowestFlag(f);
    hide Ctz, LaneOf, Flag, Flags, Is;
    if f == 0 {
      forall j | i <= j < m ensures !Is(t, s[j]) { assert !Flag(f, j - i); }
    } else {
      forall j | i <= j < i + LaneOf(f) ensures !Is(t, s[j]) { assert !Flag(f, j - i); }
    }
  }

  // ---- the line ---------------------------------------------------------------------------------

  /** The first place from i on, below n, that passes the test; n where none does. */
  function FirstOf(s: seq<bv8>, i: nat, n: nat, t: Test): (r: nat)
    requires i <= n <= |s|
    ensures i <= r <= n && (r < n ==> Is(t, s[r])) && forall j :: i <= j < r ==> !Is(t, s[j])
    decreases n - i
  {
    if i == n || Is(t, s[i]) then i else FirstOf(s, i + 1, n, t)
  }

  lemma FirstIs(s: seq<bv8>, i: nat, n: nat, t: Test, at: Option<nat>)
    requires i <= n <= |s| && First(at, s, i, n, t)
    ensures FirstOf(s, i, n, t) == (if at.Some? then at.value else n) && (at.Some? ==> at.value < n)
  {
    hide Is;
  }

  datatype Facts = Facts(end: nat, indent: nat, stop: nat, stopSet: bool)

  /** The facts of the line at pos, one byte at a time; nothing when it does not end within cap bytes. */
  function LineFactsOf(s: seq<bv8>, pos: nat, cap: nat): Option<Facts>
    requires pos <= |s|
  {
    var n := pos + if |s| - pos < cap then |s| - pos else cap;
    var end := FirstOf(s, pos, n, Break);
    if end == n && |s| - pos > cap then None
    else
      var indent := FirstOf(s, pos, end, Text);
      var stop := FirstOf(s, indent, end, Stop);
      Some(Facts(end, indent, stop, stop < end))
  }

  /**
   * The line at pos in terms of its bytes. There is none exactly when the first cap bytes hold no line feed or carriage
   * return and more bytes follow. Its end is the first break, the indent the first byte that is no space, and the stop the
   * first colon or number sign behind the indent; each is the end where there is none.
   */
  predicate LineTold(s: seq<bv8>, pos: nat, cap: nat, r: Option<Facts>)
    requires pos <= |s|
  {
    match r
    case None => |s| - pos > cap && forall j :: pos <= j < pos + cap ==> s[j] != 0x0A && s[j] != 0x0D
    case Some(f) =>
      && pos <= f.indent <= f.stop <= f.end <= |s| && f.end - pos <= cap
      && (forall j :: pos <= j < f.end ==> s[j] != 0x0A && s[j] != 0x0D)
      && (f.end == |s| || (f.end - pos < cap && s[f.end] in {0x0A, 0x0D}))
      && (forall j :: pos <= j < f.indent ==> s[j] == 0x20) && (f.indent < f.end ==> s[f.indent] != 0x20)
      && (forall j :: f.indent <= j < f.stop ==> s[j] != 0x3A && s[j] != 0x23)
      && (f.stopSet <==> f.stop < f.end) && (f.stopSet ==> s[f.stop] in {0x3A, 0x23})
  }

  lemma LineFactsExactly(s: seq<bv8>, pos: nat, cap: nat)
    requires pos <= |s|
    ensures LineTold(s, pos, cap, LineFactsOf(s, pos, cap))
  {
  }

  /** Eight bytes from i on, zero where there are none below n. */
  function Chunk(s: seq<bv8>, i: nat, n: nat): (c: seq<bv8>)
    requires i < n <= |s|
    ensures |c| == 8
    ensures forall l :: 0 <= l < 8 ==> c[l] == if i + l < n then s[i + l] else 0
  {
    seq(8, l requires 0 <= l < 8 => if i + l < n then s[i + l] else 0)
  }

  /** How many bytes the word at i holds. */
  function Avail(i: nat, n: nat): (a: nat)
    requires i < n
    ensures 1 <= a <= 8 && i + a <= n
  {
    if n - i < 8 then n - i else 8
  }

  function BreakWord(s: seq<bv8>, i: nat, n: nat): bv64
    requires i < n <= |s|
  {
    Breaks(WordOf(Chunk(s, i, n)), ValidMask(Avail(i, n)))
  }

  function RoomWord(s: seq<bv8>, i: nat, n: nat): bv64
    requires i < n <= |s|
  {
    Room(BreakWord(s, i, n), ValidMask(Avail(i, n)))
  }

  function TextWord(s: seq<bv8>, i: nat, n: nat): bv64
    requires i < n <= |s|
  {
    Texts(WordOf(Chunk(s, i, n)), RoomWord(s, i, n))
  }

  function StopWord(s: seq<bv8>, i: nat, n: nat): bv64
    requires i < n <= |s|
  {
    Stops(WordOf(Chunk(s, i, n)), RoomWord(s, i, n))
  }

  /** The end of what the word shows of the line: its first break, or its last byte. */
  function Shown(s: seq<bv8>, i: nat, n: nat): nat
    requires i < n <= |s|
  {
    var at := Place(BreakWord(s, i, n), i);
    if at.Some? then at.value else i + Avail(i, n)
  }

  /** The first break of the word. */
  lemma BreakFirst(s: seq<bv8>, i: nat, n: nat)
    requires i < n <= |s|
    ensures Flags(BreakWord(s, i, n)) && First(Place(BreakWord(s, i, n), i), s, i, i + Avail(i, n), Break)
    ensures i <= Shown(s, i, n) <= i + Avail(i, n)
  {
    var c, a := Chunk(s, i, n), Avail(i, n);
    var br := BreakWord(s, i, n);
    hide Breaks, WordOf, ValidMask, Flags, Flag, Place, BreakWord;
    forall l | 0 <= l < 8 ensures Flags(br) && (Flag(br, l) <==> i + l < i + a && IsBreak(s[i + l])) {
      BreakLane(c, a, l);
      BreakWordIs(s, i, n);
    }
    assert Flag(br, 0) || !Flag(br, 0);
    PlaceIsFirst(br, s, i, i + a, Break);
  }

  lemma BreakWordIs(s: seq<bv8>, i: nat, n: nat)
    requires i < n <= |s|
    ensures BreakWord(s, i, n) == Breaks(WordOf(Chunk(s, i, n)), ValidMask(Avail(i, n)))
  {
    hide Breaks, WordOf, ValidMask;
  }

  lemma AheadIs(s: seq<bv8>, i: nat, n: nat, l: nat)
    requires i < n <= |s| && l < 8
    ensures Flags(BreakWord(s, i, n)) && i <= Shown(s, i, n) <= i + Avail(i, n)
    ensures Ahead(BreakWord(s, i, n), Avail(i, n), l) <==> i + l < Shown(s, i, n)
  {
    BreakFirst(s, i, n);
    LowestFlag(BreakWord(s, i, n));
    hide BreakWord, Ctz, LaneOf, Flag, Flags, First;
  }

  /** The first text in front of the break. */
  lemma TextFirst(s: seq<bv8>, i: nat, n: nat)
    requires i < n <= |s|
    ensures i <= Shown(s, i, n) <= i + Avail(i, n) && First(TextPlace(s, i, n), s, i, Shown(s, i, n), Text)
  {
    var c, a, br := Chunk(s, i, n), Avail(i, n), BreakWord(s, i, n);
    var f := TextWord(s, i, n);
    assert f == Texts(WordOf(c), Room(br, ValidMask(a)));
    hide Texts, WordOf, ValidMask, Flags, Flag, Room, Ahead, Shown, BreakWord, TextWord, Place, First;
    AheadIs(s, i, n, 0);
    forall l | 0 <= l < 8 ensures Flags(f) && (Flag(f, l) <==> i + l < Shown(s, i, n) && NotSpace(s[i + l])) {
      AheadIs(s, i, n, l);
      TextLane(c, a, br, l);
    }
    assert Flag(f, 0) || !Flag(f, 0);
    PlaceIsFirst(f, s, i, Shown(s, i, n), Text);
  }

  /** The first stop in front of the break. */
  lemma StopFirst(s: seq<bv8>, i: nat, n: nat)
    requires i < n <= |s|
    ensures i <= Shown(s, i, n) <= i + Avail(i, n) && First(StopPlace(s, i, n), s, i, Shown(s, i, n), Stop)
  {
    var c, a, br := Chunk(s, i, n), Avail(i, n), BreakWord(s, i, n);
    var f := StopWord(s, i, n);
    assert f == Stops(WordOf(c), Room(br, ValidMask(a)));
    hide Stops, WordOf, ValidMask, Flags, Flag, Room, Ahead, Shown, BreakWord, StopWord, Place, First;
    AheadIs(s, i, n, 0);
    forall l | 0 <= l < 8 ensures Flags(f) && (Flag(f, l) <==> i + l < Shown(s, i, n) && IsStop(s[i + l])) {
      AheadIs(s, i, n, l);
      StopLane(c, a, br, l);
    }
    assert Flag(f, 0) || !Flag(f, 0);
    PlaceIsFirst(f, s, i, Shown(s, i, n), Stop);
  }

  function BreakPlace(s: seq<bv8>, i: nat, n: nat): Option<nat>
    requires i < n <= |s|
  {
    Place(BreakWord(s, i, n), i)
  }

  function TextPlace(s: seq<bv8>, i: nat, n: nat): Option<nat>
    requires i < n <= |s|
  {
    Place(TextWord(s, i, n), i)
  }

  function StopPlace(s: seq<bv8>, i: nat, n: nat): Option<nat>
    requires i < n <= |s|
  {
    Place(StopWord(s, i, n), i)
  }

  // ---- the sweep ------------------------------------------------------------------------------------

  /** The first text up to place k, and the first stop from it on. */
  predicate SoFar(s: seq<bv8>, pos: nat, k: nat, indent: Option<nat>, stop: Option<nat>)
    requires pos <= k <= |s|
  {
    First(indent, s, pos, k, Text) && if indent.Some? then First(stop, s, indent.value, k, Stop) else stop.None?
  }

  /** Two stretches, one behind the other. */
  lemma FirstJoins(s: seq<bv8>, i: nat, k: nat, m: nat, t: Test, a: Option<nat>, b: Option<nat>)
    requires i <= k <= m <= |s| && First(a, s, i, k, t) && First(b, s, k, m, t)
    ensures First(if a.Some? then a else b, s, i, m, t)
  {
    hide Is;
  }

  /** The first stop of a stretch, at or behind its first text, is the first from the text on: a stop is text. */
  lemma StopIsText(s: seq<bv8>, i: nat, m: nat, indent: Option<nat>, stop: Option<nat>)
    requires i <= m <= |s| && First(indent, s, i, m, Text) && First(stop, s, i, m, Stop)
    ensures indent.Some? ==> First(stop, s, indent.value, m, Stop) && (stop.Some? ==> stop.value >= indent.value)
    ensures indent.None? ==> stop.None?
  {
  }

  /** What one word adds. */
  lemma Extends(s: seq<bv8>, pos: nat, i: nat, m: nat, indent: Option<nat>, stop: Option<nat>, text: Option<nat>, next: Option<nat>)
    requires pos <= i <= m <= |s| && SoFar(s, pos, i, indent, stop) && First(text, s, i, m, Text) && First(next, s, i, m, Stop)
    ensures var ind := if indent.Some? then indent else text;
      && SoFar(s, pos, m, ind, if stop.Some? then stop else if ind.Some? then next else None)
      && (ind.Some? && next.Some? ==> next.value >= ind.value)
  {
    hide First;
    FirstJoins(s, pos, i, m, Text, indent, text);
    StopIsText(s, i, m, text, next);
    if indent.Some? {
      StopBefore(s, pos, i, indent, stop);
      FirstJoins(s, indent.value, i, m, Stop, stop, next);
      NextBehind(s, i, m, next);
    }
  }

  lemma StopBefore(s: seq<bv8>, pos: nat, i: nat, indent: Option<nat>, stop: Option<nat>)
    requires pos <= i <= |s| && SoFar(s, pos, i, indent, stop) && indent.Some?
    ensures indent.value < i && First(stop, s, indent.value, i, Stop)
  {
  }

  lemma NextBehind(s: seq<bv8>, i: nat, m: nat, next: Option<nat>)
    requires i <= m <= |s| && First(next, s, i, m, Stop)
    ensures next.Some? ==> next.value >= i
  {
  }

  /** yep_text_line_facts_capped. */
  method LineFactsCapped(s: seq<bv8>, pos: nat, cap: nat) returns (r: Option<Facts>)
    requires pos <= |s|
    ensures r == LineFactsOf(s, pos, cap)
  {
    hide BreakPlace, TextPlace, StopPlace, SoFar, First, LineFactsOf;
    var n := pos + Least(|s| - pos, cap);
    var indent, stop, end := None, None, None;
    var i := pos;
    NothingYet(s, pos);
    while i < n
      invariant pos <= i && end.None? && SoFar(s, pos, Least(i, n), indent, stop) && First(None, s, pos, Least(i, n), Break)
      decreases n - i
    {
      end := BreakPlace(s, i, n);
      var text, next := TextPlace(s, i, n), StopPlace(s, i, n);
      Step(s, pos, i, n, indent, stop, text, next, end);
      if indent.None? {
        indent := text;
      }
      if indent.Some? && stop.None? && next.Some? && next.value >= indent.value {
        stop := next;
      }
      if end.Some? {
        break;
      }
      i := i + 8;
    }
    Settle(s, pos, cap, n, indent, stop, end);
    if end.None? && |s| - pos > cap {
      return None;
    }
    var last := if end.Some? then end.value else n;
    return Some(Facts(last, if indent.Some? then indent.value else last, if stop.Some? then stop.value else last, stop.Some?));
  }

  function Least(a: nat, b: nat): nat { if a < b then a else b }

  lemma NothingYet(s: seq<bv8>, pos: nat)
    requires pos <= |s|
    ensures SoFar(s, pos, pos, None, None) && First(None, s, pos, pos, Break)
  {
  }

  /** Where one word of the loop ends: at the break, or behind the word. */
  lemma BreakStep(s: seq<bv8>, pos: nat, i: nat, n: nat, end: Option<nat>)
    requires pos <= i < n <= |s| && First(None, s, pos, i, Break) && end == BreakPlace(s, i, n)
    ensures Shown(s, i, n) == if end.Some? then end.value else Least(i + 8, n)
    ensures i <= Shown(s, i, n) <= n && First(end, s, pos, if end.Some? then n else Shown(s, i, n), Break)
  {
    BreakFirst(s, i, n);
    hide BreakWord, Place, First;
    FirstJoins(s, pos, i, i + Avail(i, n), Break, None, end);
    if end.Some? { FirstWidens(s, pos, i + Avail(i, n), n, end); }
  }

  /** One word of the loop: what is known grows to the break, or to the end of the word. */
  lemma Step(s: seq<bv8>, pos: nat, i: nat, n: nat, indent: Option<nat>, stop: Option<nat>, text: Option<nat>, next: Option<nat>, end: Option<nat>)
    requires pos <= i < n <= |s| && SoFar(s, pos, i, indent, stop) && First(None, s, pos, i, Break)
    requires text == TextPlace(s, i, n) && next == StopPlace(s, i, n) && end == BreakPlace(s, i, n)
    ensures var k, ind := if end.Some? then end.value else Least(i + 8, n), if indent.Some? then indent else text;
      && pos <= k <= n && First(end, s, pos, if end.Some? then n else k, Break)
      && SoFar(s, pos, k, ind, if stop.Some? then stop else if ind.Some? then next else None)
      && (ind.Some? && next.Some? ==> next.value >= ind.value)
  {
    hide BreakPlace, TextPlace, StopPlace, First, SoFar, Shown;
    BreakStep(s, pos, i, n, end);
    TextFirst(s, i, n);
    StopFirst(s, i, n);
    Extends(s, pos, i, Shown(s, i, n), indent, stop, text, next);
  }

  lemma FirstWidens(s: seq<bv8>, pos: nat, m: nat, n: nat, at: Option<nat>)
    requires pos <= m <= n <= |s| && at.Some? && First(at, s, pos, m, Break)
    ensures First(at, s, pos, n, Break)
  {
  }

  /** At the end of the line what the sweep knows are the facts. */
  lemma Settle(s: seq<bv8>, pos: nat, cap: nat, n: nat, indent: Option<nat>, stop: Option<nat>, end: Option<nat>)
    requires pos <= n <= |s| && n == pos + Least(|s| - pos, cap) && First(end, s, pos, n, Break)
    requires pos <= (if end.Some? then end.value else n) <= |s| && SoFar(s, pos, if end.Some? then end.value else n, indent, stop)
    ensures var last := if end.Some? then end.value else n;
      LineFactsOf(s, pos, cap)
      == if end.None? && |s| - pos > cap then None
         else Some(Facts(last, if indent.Some? then indent.value else last, if stop.Some? then stop.value else last, stop.Some?))
  {
    var last := if end.Some? then end.value else n;
    var at := if indent.Some? then indent.value else last;
    FirstIs(s, pos, n, Break, end);
    FirstIs(s, pos, last, Text, indent);
    FirstIs(s, at, last, Stop, stop);
    hide First, FirstOf;
  }
}
