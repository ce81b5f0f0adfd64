/** 64-bit words read bit by bit: the vocabulary the bit-parallel modules share. */
module Words {
  const ALL_ONES: bv64 := 0xFFFF_FFFF_FFFF_FFFF

  /** Position k as a shift amount: inside a word everything stays a bit vector. */
  function Pos(k: nat): bv8 {
    if k == 0 then 0 else Pos(k - 1) + 1
  }

  lemma {:induction false} PosValue(k: nat)
    requires k < 256
    ensures Pos(k) as nat == k
  {
    if k > 0 { PosValue(k - 1); NextValue(Pos(k - 1)); }
  }

  lemma NextValue(s: bv8)
    requires s as nat < 255
    ensures (s + 1) as nat == s as nat + 1
  {}

  lemma PosOrder(j: nat, k: nat)
    requires j <= 64 && k <= 64
    ensures Pos(j) < Pos(k) <==> j < k
    ensures Pos(j) == Pos(k) <==> j == k
  {
    PosValue(j);
    PosValue(k);
    SameOrder(Pos(j), Pos(k));
  }

  lemma SameOrder(s: bv8, t: bv8)
    ensures s < t <==> s as nat < t as nat
  {}

  lemma PosFits(k: nat)
    requires k <= 64
    ensures if k == 64 then Pos(k) == 64 else Pos(k) < 64
  {
    PosValue(k);
    SameOrder(Pos(k), 64);
    SameOrder(64, Pos(k));
  }

  /** Bit s of a word. */
  predicate At(w: bv64, s: bv8)
    requires s < 64
  {
    (w >> s) & 1 == 1
  }

  predicate Bit(w: bv64, k: nat)
    requires k < 64
  {
    PosFits(k);
    At(w, Pos(k))
  }

  /** The positions of w's set bits strictly below k, in increasing order. */
  function BitsBelow(w: bv64, k: nat): seq<nat>
    requires k <= 64
  {
    if k == 0 then []
    else BitsBelow(w, k - 1) + if Bit(w, k - 1) then [k - 1] else []
  }

  // ---- bitwise operators, bit by bit --------------------------------------

  lemma AndBit(x: bv64, y: bv64, s: bv8)
    requires s < 64
    ensures At(x & y, s) <==> At(x, s) && At(y, s)
  {}

  lemma AndNotBit(x: bv64, y: bv64, s: bv8)
    requires s < 64
    ensures At(x & !y, s) <==> At(x, s) && !At(y, s)
  {}

  lemma OrBit(x: bv64, y: bv64, s: bv8)
    requires s < 64
    ensures At(x | y, s) <==> At(x, s) || At(y, s)
  {}

  /** A left shift by one with a bit carried in moves every bit up one place. */
  lemma UpshiftBit(x: bv64, y: bv64, carry: bv64, s: bv8)
    requires carry <= 1 && s < 64 && x == (y << 1) | carry
    ensures At(x, 0) <==> carry == 1
    ensures s > 0 ==> (At(x, s) <==> At(y, s - 1))
  {}

  lemma NoBits(k: nat)
    requires k <= 64
    ensures BitsBelow(0, k) == []
  {
    if k > 0 {
      PosFits(k - 1);
      ZeroAt(Pos(k - 1));
      NoBits(k - 1);
    }
  }

  lemma ZeroAt(s: bv8)
    requires s < 64
    ensures !At(0, s)
  {}

  // ---- `1ull << k` and `(1ull << k) - 1` ------------------------------------

  function OneHot(k: nat): bv64
    requires k <= 64
  {
    PosFits(k);
    (1 as bv64) << Pos(k)
  }

  function Or(x: bv64, y: bv64): bv64 {
    x | y
  }

  lemma OrOneHotBit(x: bv64, b: bv64, y: bv64, k: nat, j: nat)
    requires k < 64 && j < 64 && b == OneHot(k) && y == Or(x, b)
    ensures Bit(y, j) <==> Bit(x, j) || j == k
  {
    hide At, Pos, Or;
    PosFits(j);
    PosFits(k);
    PosOrder(j, k);
    OrShifted(x, y, b, Pos(k), Pos(j));
  }

  lemma OrShifted(x: bv64, y: bv64, b: bv64, t: bv8, s: bv8)
    requires s < 64 && t < 64 && b == (1 as bv64) << t && y == Or(x, b)
    ensures At(y, s) <==> At(x, s) || s == t
  {}

  lemma LowMaskBit(k: nat, j: nat)
    requires k < 64 && j < 64
    ensures Bit(OneHot(k) - 1, j) <==> j < k
  {
    PosFits(j);
    PosFits(k);
    PosOrder(j, k);
    LowMaskAt(Pos(k), Pos(j));
  }

  lemma LowMaskAt(t: bv8, s: bv8)
    requires s < 64 && t < 64
    ensures ((((1 as bv64) << t) - 1) >> s) & 1 == 1 <==> s < t
  {}

  lemma AllOnesBit(k: nat)
    requires k < 64
    ensures Bit(ALL_ONES, k)
  {
    PosFits(k);
    AllOnesAt(Pos(k));
  }

  lemma AllOnesAt(s: bv8)
    requires s < 64
    ensures At(ALL_ONES, s)
  {}

  // ---- count trailing zeros ---------------------------------------------------

  /** `yep_ctz64`: the position of the lowest set bit. */
  function Ctz(w: bv64): (k: nat)
    requires w != 0
    ensures k < 64 && Bit(w, k)
    ensures forall j :: 0 <= j < k ==> !Bit(w, j)
  {
    CtzFrom(w, 0)
  }

  function CtzFrom(w: bv64, k: nat): (r: nat)
    requires w != 0 && k <= 64
    requires forall j :: 0 <= j < k ==> !Bit(w, j)
    ensures r < 64 && Bit(w, r)
    ensures forall j :: 0 <= j < r ==> !Bit(w, j)
    decreases 64 - k
  {
    assert k < 64 by { if k == 64 { ClearWord(w); } }
    if Bit(w, k) then k else CtzFrom(w, k + 1)
  }

  /** A word none of whose bits is set is zero. */
  lemma ClearWord(w: bv64)
    requires forall j :: 0 <= j < 64 ==> !Bit(w, j)
    ensures w == 0
  {
    ClearBelow(w, 64);
    PosFits(64);
    FullMask(w, OneHot(64));
  }

  lemma FullMask(w: bv64, b: bv64)
    requires b == (1 as bv64) << 64 && Masked(w, b)
    ensures w == 0
  {}

  lemma {:induction false} ClearBelow(w: bv64, k: nat)
    requires k <= 64
    requires forall j :: 0 <= j < k ==> !Bit(w, j)
    ensures Masked(w, OneHot(k))
  {
    hide At, Masked;
    if k == 0 {
      ClearFirst(w, OneHot(0));
    } else {
      ClearBelow(w, k - 1);
      assert !Bit(w, k - 1);
      PosFits(k - 1);
      PosFits(k);
      ClearNext(w, Pos(k - 1), Pos(k), OneHot(k - 1), OneHot(k));
    }
  }

  /** No bit of w lies below the single bit b. */
  predicate Masked(w: bv64, b: bv64) {
    w & (b - 1) == 0
  }

  lemma ClearFirst(w: bv64, b: bv64)
    requires b == (1 as bv64) << 0
    ensures Masked(w, b)
  {}

  lemma ClearNext(w: bv64, t: bv8, u: bv8, b: bv64, c: bv64)
    requires t < 64 && u == t + 1 && b == (1 as bv64) << t && c == (1 as bv64) << u
    requires !At(w, t) && Masked(w, b)
    ensures Masked(w, c)
  {
    MissesOneHot(w, t);
    OneHotDoubles(t);
    OneHotPower(t);
    MaskDoubles(w, b);
  }

  lemma MissesOneHot(w: bv64, t: bv8)
    requires t < 64 && !At(w, t)
    ensures w & ((1 as bv64) << t) == 0
  {}

  lemma OneHotDoubles(t: bv8)
    requires t < 64
    ensures (1 as bv64) << (t + 1) == ((1 as bv64) << t) << 1
  {}

  lemma OneHotPower(t: bv8)
    requires t < 64
    ensures var b := (1 as bv64) << t; b & (b - 1) == 0
  {}

  lemma MaskDoubles(w: bv64, b: bv64)
    requires b & (b - 1) == 0 && w & b == 0 && w & (b - 1) == 0
    ensures w & ((b << 1) - 1) == 0
  {}

  function DropLowest(w: bv64): bv64 {
    w & (w - 1)
  }

  /** `w & (w - 1)` removes exactly the lowest set bit. */
  lemma DropLowestBit(w: bv64, v: bv64, j: nat)
    requires w != 0 && v == w & (w - 1) && j < 64
    ensures Bit(v, j) <==> Bit(w, j) && j != Ctz(w)
  {
    hide At, Masked, Ctz, Pos;
    var c := Ctz(w);
    PosFits(j);
    PosFits(c);
    PosOrder(j, c);
    ClearBelow(w, c);
    DropLowestAt(w, v, Pos(c), Pos(j), OneHot(c));
  }

  lemma DropLowestAt(w: bv64, v: bv64, c: bv8, s: bv8, b: bv64)
    requires c < 64 && s < 64 && b == (1 as bv64) << c && At(w, c) && Masked(w, b)
    requires v == w & (w - 1)
    ensures At(v, s) <==> At(w, s) && s != c
  {
    LowestWord(w, c);
    WithoutOneHot(w, v, c, s);
  }

  lemma LowestWord(w: bv64, c: bv8)
    requires c < 64 && At(w, c) && w & (((1 as bv64) << c) - 1) == 0
    ensures w & (w - 1) == w & !((1 as bv64) << c)
  {}

  lemma WithoutOneHot(w: bv64, v: bv64, c: bv8, s: bv8)
    requires c < 64 && s < 64 && v == w & !((1 as bv64) << c)
    ensures At(v, s) <==> At(w, s) && s != c
  {}

  /** Dropping the lowest bit drops the first entry of the bit list. */
  lemma PeelLowest(w: bv64, v: bv64)
    requires w != 0 && v == DropLowest(w)
    ensures BitsBelow(w, 64) == [Ctz(w)] + BitsBelow(v, 64)
  {
    PeelUpTo(w, v, Ctz(w), 64);
  }

  lemma {:induction false} PeelUpTo(w: bv64, v: bv64, c: nat, k: nat)
    requires w != 0 && v == w & (w - 1) && c == Ctz(w) && k <= 64
    ensures BitsBelow(w, k) == if k <= c then [] else [c] + BitsBelow(v, k)
    ensures k <= c + 1 ==> BitsBelow(v, k) == []
  {
    if k > 0 {
      PeelUpTo(w, v, c, k - 1);
      DropLowestBit(w, v, k - 1);
    }
  }
}
