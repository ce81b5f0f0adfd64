/** Half, single and double precision by their bit patterns: rounding to a half, and exact widening. */
module Floats {
  import opened PowersOfTwo

  const TWO_52: nat := 0x10_0000_0000_0000
  const TWO_63: nat := 0x8000_0000_0000_0000
  const TWO_64: nat := 0x1_0000_0000_0000_0000

  /** 2^k for any integer k. */
  function Exp2(k: int): (x: real)
    ensures x > 0.0
    decreases if k < 0 then -k else k
  {
    if k == 0 then 1.0 else if k > 0 then 2.0 * Exp2(k - 1) else Exp2(k + 1) / 2.0
  }

  // ---- fields ----------------------------------------------------------------

  predicate IsDouble(b: nat) { b < TWO_64 }
  predicate Negative(b: nat) { b >= TWO_63 }
  function Exponent(b: nat): nat { b / TWO_52 % 2048 }
  function Mantissa(b: nat): nat { b % TWO_52 }
  predicate Finite(b: nat) { Exponent(b) != 2047 }
  predicate IsNaN(b: nat) { Exponent(b) == 2047 && Mantissa(b) != 0 }

  predicate IsHalf(h: nat) { h < 0x1_0000 }
  predicate HalfNegative(h: nat) { h >= 0x8000 }
  function HalfExponent(h: nat): nat { h / 1024 % 32 }
  function HalfMantissa(h: nat): nat { h % 1024 }
  predicate HalfFinite(h: nat) { HalfExponent(h) != 31 }

  // ---- round to nearest, ties to even -------------------------------------------

  lemma {:induction false} Euclid(n: nat, d: nat)
    requires d > 0
    ensures n == (n / d) * d + n % d && 0 <= n % d < d && n / d >= 0
  {}

  /** full / 2^shift as the code rounds it: the round bit, then sticky or an odd quotient. */
  function Rounded(full: nat, shift: nat): nat
    requires shift > 0
  {
    RoundedAt(full, Pow2(shift), Pow2(shift - 1))
  }

  function RoundedAt(full: nat, step: nat, half: nat): nat
    requires step > 0 && half > 0
  {
    Euclid(full, step);
    var q := full / step;
    var round: int := full / half % 2;
    var sticky: int := full % half;
    if round == 1 && (sticky != 0 || q % 2 == 1) then q + 1 else q
  }

  function Distance(a: int, b: int): nat { if a < b then b - a else a - b }

  lemma {:induction false} Succ(x: int, d: int)
    ensures (x + 1) * d == x * d + d
  {}

  lemma {:induction false} MulGap(a: int, b: int, d: nat)
    requires a < b
    ensures a * d + d <= b * d
    decreases b - a
  {
    Succ(b - 1, d);
    if a + 1 < b { MulGap(a, b - 1, d); }
  }

  lemma {:induction false} DivisionUnique(n: nat, d: nat, q: int, r: nat)
    requires d > 0 && n == q * d + r && r < d
    ensures n / d == q && n % d == r
  {
    Euclid(n, d);
    var q', r' := n / d, n % d;
    if q' < q { MulGap(q', q, d); }
    if q < q' { MulGap(q, q', d); }
  }

  lemma {:induction false} TwiceFactor(q: int, p: int)
    ensures q * (2 * p) == (2 * q) * p
  {}

  /** The bits below the quotient, read as the code reads them. */
  lemma {:induction false} HalfBits(full: nat, p: nat)
    requires p > 0
    ensures var q, r := full / (2 * p), full % (2 * p);
      if r < p then full / p == 2 * q && full % p == r else full / p == 2 * q + 1 && full % p == r - p
  {
    var q, r := full / (2 * p), full % (2 * p);
    Euclid(full, 2 * p);
    TwiceFactor(q, p);
    if r < p {
      DivisionUnique(full, p, 2 * q, r);
    } else {
      Succ(2 * q, p);
      DivisionUnique(full, p, 2 * q + 1, r - p);
    }
  }

  /** The result is within half a step, and even when it is exactly half a step away. */
  lemma {:induction false} RoundedClose(full: nat, shift: nat)
    requires shift > 0
    ensures var step, m := Pow2(shift), Rounded(full, shift);
      && 2 * Distance(full, m * step) <= step
      && (2 * Distance(full, m * step) == step ==> m % 2 == 0)
  {
    var p := Pow2(shift - 1);
    HalfBits(full, p);
    Euclid(full, 2 * p);
    Succ(full / (2 * p), 2 * p);
  }

  /** No multiple of the step is nearer; on a tie the result is the even one. */
  lemma {:induction false} RoundedNearest(full: nat, shift: nat, k: int)
    requires shift > 0 && k != Rounded(full, shift)
    ensures var step, m := Pow2(shift), Rounded(full, shift);
      && Distance(full, m * step) <= Distance(full, k * step)
      && (Distance(full, m * step) == Distance(full, k * step) ==> m % 2 == 0)
  {
    var step, m := Pow2(shift), Rounded(full, shift);
    RoundedClose(full, shift);
    StepApart(m, k, step);
  }

  lemma {:induction false} StepApart(m: int, k: int, step: nat)
    requires m != k
    ensures Distance(m * step, k * step) >= step
  {
    if m < k { MulGap(m, k, step); } else { MulGap(k, m, step); }
  }

  // ---- cbor_d2h --------------------------------------------------------------------

  const HALF_INFINITY: nat := 0x7C00
  const CANONICAL_NAN: nat := 0x7E00

  function SignBit(b: nat): nat { if Negative(b) then 0x8000 else 0 }

  /** Double to half, round to nearest even; a NaN loses its sign and payload. */
  function DoubleToHalf(b: nat): nat
    requires IsDouble(b)
  {
    var sign, exp, man := SignBit(b), Exponent(b), Mantissa(b);
    if exp == 2047 then (if man != 0 then CANONICAL_NAN else sign + HALF_INFINITY)
    else
      var e2 := exp - 1008;
      if e2 >= 31 then sign + HALF_INFINITY
      else if e2 > 0 then
        var m10 := Rounded(man, 42);
        if m10 == 0x400 then
          if e2 + 1 >= 31 then sign + HALF_INFINITY else sign + (e2 + 1) * 1024
        else sign + e2 * 1024 + m10
      else if e2 < -10 then sign
      else
        var m10 := Rounded(TWO_52 + man, 43 - e2);
        if m10 == 0x400 then sign + 1024 else sign + m10
  }

  // ---- what the patterns denote -----------------------------------------------------

  function HalfSig(h: nat): nat {
    if HalfExponent(h) == 0 then HalfMantissa(h) else 1024 + HalfMantissa(h)
  }

  function HalfScale(h: nat): nat {
    if HalfExponent(h) == 0 then 1 else HalfExponent(h)
  }

  /** The significand of a double, in units of 2^(Exponent - 1075). */
  function DoubleSig(b: nat): nat {
    if Exponent(b) == 0 then 2 * Mantissa(b) else TWO_52 + Mantissa(b)
  }

  function SignedInt(negative: bool, x: nat): int { if negative then 0 - x else x }

  /** n * 2^k. */
  function Scale(n: int, k: int): real { n as real * Exp2(k) }

  function HalfValue(h: nat): real {
    Scale(SignedInt(HalfNegative(h), HalfSig(h)), HalfScale(h) - 25)
  }

  function DoubleValue(b: nat): real {
    Scale(SignedInt(Negative(b), DoubleSig(b)), Exponent(b) - 1075)
  }

  // ---- nearest, in units of the double's last place -------------------------------------

  /** The half exponent the double falls in. */
  function Binade(b: nat): int { Exponent(b) - 1008 }

  function Shift(b: nat): nat { if Binade(b) > 0 then 42 else 43 - Binade(b) }

  /** A half's magnitude in units of the double's last place. */
  function HalfUlps(h: nat, e2: int): nat
    requires e2 <= 30
  {
    HalfSig(h) * Pow2(42 + HalfScale(h) - e2)
  }

  lemma {:induction false} Powers()
    ensures Pow2(41) == 0x200_0000_0000 && Pow2(42) == 0x400_0000_0000 && Pow2(43) == 0x800_0000_0000
    ensures Pow2(53) == 0x20_0000_0000_0000
  {
    Pow2Sum(5, 5);
    Pow2Sum(10, 10);
    Pow2Sum(20, 20);
    Pow2Sum(40, 1);
    Pow2Sum(40, 2);
    Pow2Sum(40, 3);
    Pow2Sum(43, 10);
  }

  lemma {:induction false} Pow2Grows(a: nat, b: nat)
    requires a <= b
    ensures Pow2(a) <= Pow2(b)
    decreases b
  {
    if a < b { Pow2Grows(a, b - 1); }
  }

  lemma {:induction false} QuotientBelow(n: nat, d: nat, k: nat)
    requires d > 0 && n < k * d
    ensures 0 <= n / d < k
  {
    Euclid(n, d);
    if n / d >= k {
      if n / d > k { MulGap(k, n / d, d); }
      assert false;
    }
  }

  /** The rounded significand stays within the next binade's first value. */
  lemma {:induction false} RoundedSmall(full: nat, shift: nat)
    requires shift >= 43 && full < TWO_52 * 2
    ensures 0 <= Rounded(full, shift) <= 1024
    ensures shift > 53 ==> Rounded(full, shift) == 0
  {
    Powers();
    Pow2Grows(43, shift);
    assert 1024 * Pow2(shift) >= TWO_52 * 2;
    QuotientBelow(full, Pow2(shift), 1024);
    if shift > 53 {
      Pow2Grows(53, shift - 1);
      assert full < 1 * Pow2(shift - 1);
      QuotientBelow(full, Pow2(shift - 1), 1);
      QuotientBelow(full, Pow2(shift), 1);
    }
  }

  /** Unsigned part of the result, and the integer it rounds to. */
  function Magnitude(b: nat): int
    requires IsDouble(b)
  {
    DoubleToHalf(b) - SignBit(b)
  }

  lemma {:induction false} MagnitudeSmall(b: nat)
    requires IsDouble(b) && Finite(b) && Binade(b) <= 0
    ensures Magnitude(b) == Rounded(DoubleSig(b), Shift(b))
    ensures 0 <= Magnitude(b) <= 1024
  {
    hide Rounded;
    RoundedSmall(DoubleSig(b), Shift(b));
  }

  /** The implicit bit passes through the rounding. */
  lemma {:induction false} ImplicitBit(man: nat)
    requires man < TWO_52
    ensures Rounded(man, 42) <= 1024 && Rounded(TWO_52 + man, 42) == 1024 + Rounded(man, 42)
  {
    Powers();
    assert (TWO_52 + man) / 0x400_0000_0000 == 1024 + man / 0x400_0000_0000;
    assert (TWO_52 + man) / 0x200_0000_0000 == 2048 + man / 0x200_0000_0000;
    assert (TWO_52 + man) % 0x200_0000_0000 == man % 0x200_0000_0000;
  }

  lemma {:induction false} MagnitudeNormal(b: nat)
    requires IsDouble(b) && Finite(b) && 0 < Binade(b) <= 30
    ensures var m := Rounded(DoubleSig(b), 42);
      && 1024 <= m <= 2048
      && Magnitude(b) == if m == 2048 then (Binade(b) + 1) * 1024 else Binade(b) * 1024 + m - 1024
  {
    hide Rounded;
    ImplicitBit(Mantissa(b));
  }

  /** The result as a multiple of the rounding step. */
  lemma {:induction false} ResultUlps(b: nat)
    requires IsDouble(b) && Finite(b) && Binade(b) <= 30
    ensures 0 <= Magnitude(b) <= HALF_INFINITY
    ensures Magnitude(b) < HALF_INFINITY ==>
      var m := Rounded(DoubleSig(b), Shift(b));
      && HalfUlps(Magnitude(b), Binade(b)) == m * Pow2(Shift(b))
      && HalfMantissa(Magnitude(b)) % 2 == m % 2
  {
    hide Rounded, DoubleToHalf, HalfUlps, DoubleSig;
    var m := Rounded(DoubleSig(b), Shift(b));
    if Binade(b) <= 0 {
      MagnitudeSmall(b);
      SmallUlps(m, Binade(b));
    } else {
      MagnitudeNormal(b);
      if Magnitude(b) < HALF_INFINITY { NormalUlps(m, Binade(b)); }
    }
  }

  lemma {:induction false} SmallUlps(r: nat, e2: int)
    requires r <= 1024 && e2 <= 0
    ensures HalfUlps(r, e2) == r * Pow2(43 - e2)
  {
    assert HalfSig(r) == r && HalfScale(r) == 1;
  }

  lemma {:induction false} NormalUlps(m: nat, e2: int)
    requires 0 < e2 <= 30 && 1024 <= m <= 2048 && (m == 2048 ==> e2 < 30)
    ensures var r := if m == 2048 then (e2 + 1) * 1024 else e2 * 1024 + m - 1024;
      HalfUlps(r, e2) == m * Pow2(42) && HalfMantissa(r) % 2 == m % 2
  {
    hide Pow2;
    if m == 2048 {
      var r := (e2 + 1) * 1024;
      HalfFields(e2 + 1, 0);
      Pow2Step(42);
    } else {
      HalfFields(e2, m - 1024);
    }
  }

  lemma {:induction false} HalfFields(e: nat, man: nat)
    requires 0 < e <= 31 && man < 1024
    ensures var r := e * 1024 + man;
      HalfExponent(r) == e && HalfMantissa(r) == man && HalfSig(r) == 1024 + man && HalfScale(r) == e
  {}

  lemma {:induction false} Pow2Step(n: nat)
    ensures Pow2(n + 1) == 2 * Pow2(n)
  {}

  /** Any half is a multiple of the step, or lies below the double's binade. */
  lemma {:induction false} HalfOnGrid(h: nat, e2: int) returns (k: int)
    requires IsHalf(h) && HalfFinite(h) && e2 <= 30
    ensures var shift: nat := if e2 > 0 then 42 else 43 - e2;
      HalfUlps(h, e2) == k * Pow2(shift) || (e2 > 0 && HalfUlps(h, e2) < TWO_52)
  {
    hide HalfSig, HalfScale, Pow2;
    HalfSigBound(h);
    k := GridMultiple(HalfSig(h), HalfScale(h), e2);
  }

  lemma {:induction false} HalfSigBound(h: nat)
    ensures HalfSig(h) <= 2047 && HalfScale(h) > 0
  {}

  lemma {:induction false} GridMultiple(sig: nat, scale: nat, e2: int) returns (k: int)
    requires sig <= 2047 && scale > 0 && e2 <= 30
    ensures var shift: nat := if e2 > 0 then 42 else 43 - e2;
      sig * Pow2(42 + scale - e2) == k * Pow2(shift) || (e2 > 0 && sig * Pow2(42 + scale - e2) < TWO_52)
  {
    hide Pow2;
    k := 0;
    if e2 <= 0 {
      k := sig * Pow2(scale - 1);
      Pow2Sum(scale - 1, 43 - e2);
      Associate(sig, Pow2(scale - 1), Pow2(43 - e2));
    } else if scale >= e2 {
      k := sig * Pow2(scale - e2);
      Pow2Sum(scale - e2, 42);
      Associate(sig, Pow2(scale - e2), Pow2(42));
    } else {
      Powers();
      Pow2Grows(42 + scale - e2, 41);
      ProductBelow(sig, 2047, Pow2(42 + scale - e2), Pow2(41));
    }
  }

  lemma {:induction false} Associate(a: int, b: int, c: int)
    ensures a * (b * c) == (a * b) * c
  {}

  lemma {:induction false} ProductBelow(a: nat, a': nat, b: nat, b': nat)
    requires a <= a' && b <= b'
    ensures a * b <= a' * b'
  {
    if a < a' { MulGap(a, a', b); }
    Commute(a', b);
    Commute(a', b');
    if b < b' { MulGap(b, b', a'); }
  }

  lemma {:induction false} Commute(a: int, b: int)
    ensures a * b == b * a
  {}

  /** No half magnitude is nearer than the result; a tie leaves an even mantissa. */
  lemma {:induction false} NearestMagnitude(b: nat, h: nat)
    requires IsDouble(b) && Finite(b) && Binade(b) <= 30 && 0 <= Magnitude(b) < HALF_INFINITY
    requires IsHalf(h) && HalfFinite(h)
    ensures var s, u, v := DoubleSig(b), HalfUlps(Magnitude(b), Binade(b)), HalfUlps(h, Binade(b));
      && Distance(s, u) <= Distance(s, v)
      && (Distance(s, u) == Distance(s, v) && u != v ==> HalfMantissa(Magnitude(b)) % 2 == 0)
  {
    hide Rounded, DoubleToHalf, HalfUlps;
    var s, shift := DoubleSig(b), Shift(b);
    var m := Rounded(s, shift);
    ResultUlps(b);
    var k := HalfOnGrid(h, Binade(b));
    if HalfUlps(h, Binade(b)) == k * Pow2(shift) {
      if k != m { RoundedNearest(s, shift, k); }
    } else {
      Powers();
      if m != 1024 { RoundedNearest(s, shift, 1024); }
      assert 1024 * Pow2(42) == TWO_52;
    }
  }

  // ---- nearest, as real numbers ---------------------------------------------------------------

  lemma {:induction false} Exp2Step(k: int)
    ensures Exp2(k + 1) == 2.0 * Exp2(k)
  {}

  lemma {:induction false} RealTwice(x: real, y: real)
    ensures 2.0 * (x * y) == x * (2.0 * y)
  {}

  lemma {:induction false} CastTwice(n: int)
    ensures (2 * n) as real == 2.0 * n as real
  {}

  lemma {:induction false} ScaleStep(n: int, k: int)
    ensures Scale(2 * n, k) == Scale(n, k + 1)
  {
    Exp2Step(k);
    CastTwice(n);
    hide Exp2;
    RealTwice(n as real, Exp2(k));
  }

  /** Powers of two move between the significand and the exponent. */
  lemma {:induction false} ScaleShift(n: int, k: int, s: nat)
    ensures Scale(n * Pow2(s), k) == Scale(n, k + s)
    decreases s
  {
    hide Scale;
    if s > 0 {
      ScaleShift(n, k + 1, s - 1);
      DoubledInt(n, Pow2(s - 1));
      ScaleStep(n * Pow2(s - 1), k);
    }
  }

  lemma {:induction false} DoubledInt(x: int, y: nat)
    ensures x * (2 * y) == 2 * (x * y)
  {}

  lemma {:induction false} RealSign(d: real, u: real)
    requires u > 0.0
    ensures d < 0.0 <==> d * u < 0.0
  {}

  lemma {:induction false} RealMinus(x: real, y: real, u: real)
    ensures (x - y) * u == x * u - y * u
  {}

  lemma {:induction false} RealLess(x: real, y: real, u: real)
    requires u > 0.0
    ensures x < y <==> x * u < y * u
  {
    RealMinus(x, y, u);
    RealSign(x - y, u);
  }

  lemma {:induction false} ScaleLess(a: int, b: int, k: int)
    ensures a < b <==> Scale(a, k) < Scale(b, k)
  {
    hide Exp2;
    RealLess(a as real, b as real, Exp2(k));
  }

  lemma {:induction false} ScaleMinus(a: int, b: int, k: int)
    ensures Scale(a - b, k) == Scale(a, k) - Scale(b, k)
  {
    hide Exp2;
    RealMinus(a as real, b as real, Exp2(k));
  }

  function Apart(x: real, y: real): real { if x < y then y - x else x - y }

  lemma {:induction false} ScaleApart(a: int, b: int, k: int)
    ensures Apart(Scale(a, k), Scale(b, k)) == Scale(Distance(a, b), k)
  {
    hide Scale;
    ScaleLess(a, b, k);
    ScaleMinus(a, b, k);
    ScaleMinus(b, a, k);
  }

  lemma {:induction false} SignKept(b: nat)
    requires IsDouble(b) && Finite(b) && 0 <= Magnitude(b) <= HALF_INFINITY
    ensures IsHalf(DoubleToHalf(b)) && HalfNegative(DoubleToHalf(b)) == Negative(b)
    ensures HalfSig(DoubleToHalf(b)) == HalfSig(Magnitude(b))
    ensures HalfExponent(DoubleToHalf(b)) == HalfExponent(Magnitude(b))
    ensures HalfMantissa(DoubleToHalf(b)) == HalfMantissa(Magnitude(b))
  {
    hide DoubleToHalf;
    assert DoubleToHalf(b) == SignBit(b) + Magnitude(b) as nat;
  }

  /** Also when the candidate has the other sign. */
  lemma {:induction false} NearestSigned(s: nat, u: nat, v: nat, zero: nat, even: bool, same: bool)
    requires zero == 0
    requires Distance(s, u) <= Distance(s, v) && (Distance(s, u) == Distance(s, v) && u != v ==> even)
    requires Distance(s, u) <= Distance(s, zero) && (Distance(s, u) == Distance(s, zero) && u != zero ==> even)
    ensures var w := if same then v else 0 - v;
      Distance(s, u) <= Distance(s, w) && (Distance(s, u) == Distance(s, w) && u != w ==> even)
  {}

  /** The distance from a double to a half, in units of the double's last place. */
  function GapUlps(b: nat, h: nat): nat
    requires Binade(b) <= 30
  {
    Distance(SignedInt(Negative(b), DoubleSig(b)), SignedInt(HalfNegative(h), HalfUlps(h, Binade(b))))
  }

  lemma {:induction false} NearestUlps(b: nat, h: nat)
    requires IsDouble(b) && Finite(b) && HalfFinite(DoubleToHalf(b)) && IsHalf(h) && HalfFinite(h) && Binade(b) <= 30
    ensures var r := DoubleToHalf(b);
      && IsHalf(r) && HalfNegative(r) == Negative(b) && HalfUlps(r, Binade(b)) == HalfUlps(Magnitude(b), Binade(b))
      && GapUlps(b, r) <= GapUlps(b, h)
      && (GapUlps(b, r) == GapUlps(b, h) ==>
          HalfMantissa(r) % 2 == 0 ||
          SignedInt(HalfNegative(r), HalfUlps(r, Binade(b))) == SignedInt(HalfNegative(h), HalfUlps(h, Binade(b))))
  {
    hide DoubleToHalf, DoubleSig, HalfSig, Magnitude, Pow2, Rounded, Shift;
    ResultUlps(b);
    MagnitudeFinite(b);
    SignKept(b);
    var u, v := HalfUlps(Magnitude(b), Binade(b)), HalfUlps(h, Binade(b));
    assert HalfUlps(DoubleToHalf(b), Binade(b)) == u;
    hide HalfUlps, HalfScale, HalfExponent;
    NearestMagnitude(b, h);
    NearestMagnitude(b, 0);
    ZeroUlps(Binade(b));
    NearestSigned(DoubleSig(b), u, v, 0, HalfMantissa(DoubleToHalf(b)) % 2 == 0, HalfNegative(h) == Negative(b));
  }

  lemma {:induction false} HalfInUlps(h: nat, e2: int)
    requires e2 <= 30
    ensures HalfValue(h) == Scale(SignedInt(HalfNegative(h), HalfUlps(h, e2)), e2 - 67)
  {
    hide Scale, Pow2, HalfSig, HalfScale, HalfNegative;
    ScaleShift(SignedInt(HalfNegative(h), HalfSig(h)), e2 - 67, 42 + HalfScale(h) - e2);
    SignedTimes(HalfNegative(h), HalfSig(h), Pow2(42 + HalfScale(h) - e2));
  }

  lemma {:induction false} SignedTimes(neg: bool, a: nat, p: nat)
    ensures SignedInt(neg, a) * p == SignedInt(neg, a * p)
  {}

  lemma {:induction false} GapInReals(b: nat, h: nat)
    requires Binade(b) <= 30
    ensures Apart(DoubleValue(b), HalfValue(h)) == Scale(GapUlps(b, h), Exponent(b) - 1075)
    ensures HalfValue(h) == Scale(SignedInt(HalfNegative(h), HalfUlps(h, Binade(b))), Exponent(b) - 1075)
  {
    hide Scale, HalfUlps, DoubleSig, HalfValue, HalfSig, HalfScale, Negative, HalfNegative, Exponent;
    HalfInUlps(h, Binade(b));
    ScaleApart(SignedInt(Negative(b), DoubleSig(b)), SignedInt(HalfNegative(h), HalfUlps(h, Binade(b))), Exponent(b) - 1075);
  }

  /** No finite half is nearer to b than r, and one exactly as near leaves r an even mantissa. */
  predicate Nearest(b: nat, r: nat, h: nat)
    requires IsDouble(b) && Finite(b)
  {
    && Apart(DoubleValue(b), HalfValue(r)) <= Apart(DoubleValue(b), HalfValue(h))
    && (Apart(DoubleValue(b), HalfValue(r)) == Apart(DoubleValue(b), HalfValue(h)) && HalfValue(r) != HalfValue(h)
        ==> HalfMantissa(r) % 2 == 0)
  }

  lemma {:induction false} NearestInRange(b: nat, h: nat)
    requires IsDouble(b) && Finite(b) && HalfFinite(DoubleToHalf(b))
    requires IsHalf(h) && HalfFinite(h)
    ensures var r := DoubleToHalf(b);
      && IsHalf(r) && HalfNegative(r) == Negative(b)
      && Apart(DoubleValue(b), HalfValue(r)) <= Apart(DoubleValue(b), HalfValue(h))
      && (Apart(DoubleValue(b), HalfValue(r)) == Apart(DoubleValue(b), HalfValue(h)) && HalfValue(r) != HalfValue(h)
          ==> HalfMantissa(r) % 2 == 0)
  {
    hide *;
    BinadeBound(b);
    var r, k := DoubleToHalf(b), Exponent(b) - 1075;
    NearestUlps(b, h);
    GapInReals(b, r);
    GapInReals(b, h);
    ScaleLess(GapUlps(b, h), GapUlps(b, r), k);
    ScaleLess(GapUlps(b, r), GapUlps(b, h), k);
  }

  lemma {:induction false} ZeroUlps(e2: int)
    requires e2 <= 30
    ensures HalfUlps(0, e2) == 0
  {}

  lemma {:induction false} BinadeBound(b: nat)
    requires IsDouble(b) && Finite(b) && HalfFinite(DoubleToHalf(b))
    ensures Binade(b) <= 30
  {}

  lemma {:induction false} MagnitudeFinite(b: nat)
    requires IsDouble(b) && Finite(b) && HalfFinite(DoubleToHalf(b)) && 0 <= Magnitude(b) <= HALF_INFINITY
    ensures Magnitude(b) < HALF_INFINITY
  {
    hide DoubleToHalf;
    if Magnitude(b) == HALF_INFINITY { SignKept(b); }
  }

  // ---- overflow -----------------------------------------------------------------------------

  /** In units of the last place of the top half binade: 65520 is 2047.5 steps. */
  lemma {:induction false} TopRounds(man: nat)
    requires man < TWO_52
    ensures Rounded(TWO_52 + man, 42) == 2048 <==> 2 * (TWO_52 + man) >= 4095 * Pow2(42)
  {
    var full, step := TWO_52 + man, Pow2(42);
    Powers();
    ImplicitBit(man);
    hide Rounded, Pow2;
    RoundedClose(full, 42);
    if Rounded(full, 42) < 2048 {
      RoundedNearest(full, 42, 2048);
      assert Rounded(full, 42) * step <= 2047 * step;
    }
  }

  lemma {:induction false} InfiniteMagnitude(b: nat)
    requires IsDouble(b) && Finite(b)
    ensures HalfFinite(DoubleToHalf(b)) <==>
      Binade(b) < 30 || (Binade(b) == 30 && 2 * DoubleSig(b) < 4095 * Pow2(42))
  {
    hide DoubleToHalf, Pow2, Exponent, DoubleSig;
    if Binade(b) <= 30 {
      TopMagnitude(b);
      SignKept(b);
      TopField(Magnitude(b));
    } else {
      HugeMagnitude(b);
    }
  }

  lemma {:induction false} TopField(m: nat)
    requires m <= HALF_INFINITY
    ensures HalfExponent(m) == 31 <==> m == HALF_INFINITY
  {}

  lemma {:induction false} HugeMagnitude(b: nat)
    requires IsDouble(b) && Finite(b) && Binade(b) > 30
    ensures !HalfFinite(DoubleToHalf(b))
  {
    hide Rounded, Exponent;
  }

  lemma {:induction false} TopMagnitude(b: nat)
    requires IsDouble(b) && Finite(b) && Binade(b) <= 30
    ensures 0 <= Magnitude(b) <= HALF_INFINITY
    ensures Magnitude(b) == HALF_INFINITY <==> Binade(b) == 30 && 2 * DoubleSig(b) >= 4095 * Pow2(42)
  {
    hide Rounded, DoubleToHalf, Pow2, Exponent, Magnitude;
    if Binade(b) <= 0 {
      MagnitudeSmall(b);
    } else {
      MagnitudeNormal(b);
      if Binade(b) == 30 { TopRounds(Mantissa(b)); }
    }
  }

  /** A finite double becomes an infinite half exactly from 65520 on: half a step above the largest half, 65504. */
  lemma {:induction false} OverflowsFrom65520(b: nat)
    requires IsDouble(b) && Finite(b)
    ensures HalfFinite(DoubleToHalf(b)) <==> Apart(DoubleValue(b), 0.0) < 65520.0
  {
    hide HalfFinite, DoubleToHalf, Apart, DoubleValue, DoubleSig, Scale, Exponent, Pow2;
    InfiniteMagnitude(b);
    SigRange(b);
    ValueSize(b);
    TopValue(DoubleSig(b), Exponent(b));
  }

  lemma {:induction false} InfiniteResult(b: nat)
    requires IsDouble(b) && Finite(b) && !HalfFinite(DoubleToHalf(b))
    ensures DoubleToHalf(b) == SignBit(b) + HALF_INFINITY
  {
    hide DoubleToHalf, Exponent;
    if Binade(b) <= 30 {
      TopMagnitude(b);
      SignKept(b);
      TopField(Magnitude(b));
    } else {
      HugeResult(b);
    }
  }

  lemma {:induction false} HugeResult(b: nat)
    requires IsDouble(b) && Finite(b) && Binade(b) > 30
    ensures DoubleToHalf(b) == SignBit(b) + HALF_INFINITY
  {
    hide Rounded, Exponent;
  }

  /**
   * cbor_d2h on every double: below 65520 in magnitude it rounds to nearest, ties to even, so that no finite half
   * is nearer than the one it returns; from there on, infinities included, it returns the infinity of the same sign;
   * a NaN gives the one NaN it knows.
   */
  lemma {:induction false} DoubleToHalfNearest(b: nat, h: nat)
    requires IsDouble(b)
    ensures var r := DoubleToHalf(b);
      && IsHalf(r) && (!IsNaN(b) ==> HalfNegative(r) == Negative(b))
      && (if !Finite(b) then r == (if IsNaN(b) then CANONICAL_NAN else SignBit(b) + HALF_INFINITY)
          else if Apart(DoubleValue(b), 0.0) < 65520.0 then HalfFinite(r) && (IsHalf(h) && HalfFinite(h) ==> Nearest(b, r, h))
          else r == SignBit(b) + HALF_INFINITY)
  {
    if Finite(b) {
      hide DoubleToHalf, DoubleValue, HalfValue, HalfFinite, HalfMantissa, Finite, Apart, Negative, HalfNegative;
      OverflowsFrom65520(b);
      if HalfFinite(DoubleToHalf(b)) {
        ZeroFinite();
        NearestInRange(b, 0);
        if IsHalf(h) && HalfFinite(h) { NearestInRange(b, h); }
      } else {
        InfiniteResult(b);
        SignedInfinity(b);
      }
    }
  }

  lemma {:induction false} ZeroFinite()
    ensures IsHalf(0) && HalfFinite(0)
  {}

  lemma {:induction false} SignedInfinity(b: nat)
    ensures IsHalf(SignBit(b) + HALF_INFINITY) && HalfNegative(SignBit(b) + HALF_INFINITY) == Negative(b)
  {}

  lemma {:induction false} SigRange(b: nat)
    ensures DoubleSig(b) < 2 * TWO_52 && (Exponent(b) > 0 ==> DoubleSig(b) >= TWO_52)
  {}

  lemma {:induction false} ScaleZero(k: int)
    ensures Scale(0, k) == 0.0
  {}

  lemma {:induction false} ValueSize(b: nat)
    ensures Apart(DoubleValue(b), 0.0) == Scale(DoubleSig(b), Exponent(b) - 1075)
  {
    hide Exponent, DoubleSig, Scale, Negative, Apart;
    var sig, k := SignedInt(Negative(b), DoubleSig(b)), Exponent(b) - 1075;
    ScaleZero(k);
    ScaleApart(sig, 0, k);
  }

  lemma {:induction false} TopValue(sig: nat, exp: nat)
    requires sig < 2 * TWO_52 && (exp > 0 ==> sig >= TWO_52)
    ensures exp < 1038 || (exp == 1038 && 2 * sig < 4095 * Pow2(42)) <==> Scale(sig, exp - 1075) < 65520.0
  {
    hide Scale, Pow2;
    TopUnits();
    if exp < 1038 {
      ScaleGrows(sig, exp - 1075, -38);
      ScaleLess(sig, 2 * TWO_52, -38);
    } else if exp == 1038 {
      ScaleLess(sig, 9005000231485440, -37);
    } else {
      ScaleGrows(TWO_52, -36, exp - 1075);
      ScaleLess(sig, TWO_52, exp - 1075);
    }
  }

  lemma {:induction false} ScaleGrows(n: nat, a: int, b: int)
    requires a <= b
    ensures Scale(n, a) <= Scale(n, b)
    decreases b - a
  {
    if a < b {
      hide Scale;
      ScaleGrows(n, a, b - 1);
      ScaleStep(n, b - 1);
      ScaleLess(2 * n, n, b - 1);
    }
  }

  lemma {:induction false} TopUnits()
    ensures Scale(2 * TWO_52, -38) == 32768.0
    ensures Scale(9005000231485440, -37) == 65520.0 && 4095 * Pow2(42) == 2 * 9005000231485440
    ensures Scale(TWO_52, -36) == 65536.0
  {
    Powers();
    hide Pow2, Exp2;
    Pow2Of38();
    hide Scale;
    ScaleShift(32768, -38, 38);
    ScaleOne(32768);
    ScaleShift(65520, -38, 38);
    ScaleStep(9005000231485440, -38);
    ScaleOne(65520);
    ScaleShift(65536, -38, 38);
    ScaleStep(2 * TWO_52, -38);
    ScaleStep(TWO_52, -37);
    ScaleOne(65536);
  }

  lemma {:induction false} ScaleOne(n: int)
    ensures Scale(n, 0) == n as real
  {}

  lemma {:induction false} Pow2Of38()
    ensures Pow2(38) == 0x40_0000_0000
  {
    Pow2Sum(38, 3);
    Powers();
  }

  // ---- exact widening ------------------------------------------------------------------------

  /** The pattern of the double with that sign, exponent field and mantissa field. */
  function Pack(neg: bool, e: nat, man: nat): nat {
    (if neg then TWO_63 else 0) + e * TWO_52 + man
  }

  lemma {:induction false} PackFields(neg: bool, e: nat, man: nat)
    requires e < 2048 && man < TWO_52
    ensures var b := Pack(neg, e, man);
      IsDouble(b) && Negative(b) == neg && Exponent(b) == e && Mantissa(b) == man
  {}

  lemma {:induction false} Unpacked(b: nat)
    requires IsDouble(b)
    ensures b == Pack(Negative(b), Exponent(b), Mantissa(b)) && Exponent(b) < 2048 && Mantissa(b) < TWO_52
  {}

  /** The double that is exactly sig * 2^k: doubled until it is normal, or has no smaller exponent. */
  function Exact(neg: bool, sig: nat, k: int): nat
    requires sig < 2 * TWO_52 && -1074 <= k <= 971
    decreases k + 1074
  {
    if sig >= TWO_52 then Pack(neg, k + 1075, sig - TWO_52)
    else if k == -1074 then Pack(neg, 0, sig)
    else Exact(neg, 2 * sig, k - 1)
  }

  lemma {:induction false} ExactValue(neg: bool, sig: nat, k: int)
    requires sig < 2 * TWO_52 && -1074 <= k <= 971
    ensures var b := Exact(neg, sig, k);
      && IsDouble(b) && Finite(b) && Negative(b) == neg
      && DoubleValue(b) == Scale(SignedInt(neg, sig), k)
    decreases k + 1074
  {
    hide Scale, Pack, Exponent, Mantissa, Negative;
    if sig >= TWO_52 {
      PackFields(neg, k + 1075, sig - TWO_52);
    } else if k == -1074 {
      PackFields(neg, 0, sig);
      ScaleStep(SignedInt(neg, sig), -1075);
    } else {
      ExactValue(neg, 2 * sig, k - 1);
      ScaleStep(SignedInt(neg, sig), k - 1);
    }
  }

  /** The widening only shifts: the significand gains j zero bits and the exponent loses j. */
  lemma {:induction false} ExactShift(neg: bool, sig: nat, k: int) returns (j: nat)
    requires 0 < sig < 2 * TWO_52 && -1074 <= k <= 971
    ensures var b := Exact(neg, sig, k);
      Exponent(b) > 0 ==> DoubleSig(b) == sig * Pow2(j) && Exponent(b) == k - j + 1075
    ensures j <= k + 1074
    decreases k + 1074
  {
    hide Pack, Exponent, Mantissa, Pow2;
    j := 0;
    if sig >= TWO_52 {
      PackFields(neg, k + 1075, sig - TWO_52);
      PowZero();
    } else if k == -1074 {
      PackFields(neg, 0, sig);
    } else {
      var i := ExactShift(neg, 2 * sig, k - 1);
      j := i + 1;
      Pow2Step(i);
      DoubledInt(sig, Pow2(i));
      Associate(2, sig, Pow2(i));
    }
  }

  lemma {:induction false} PowZero()
    ensures Pow2(0) == 1
  {}

  /** A finite double is determined by its sign and its value. */
  lemma {:induction false} ValueDetermines(a: nat, b: nat)
    requires IsDouble(a) && IsDouble(b) && Finite(a) && Finite(b)
    requires Negative(a) == Negative(b) && DoubleValue(a) == DoubleValue(b)
    ensures a == b
  {
    hide Negative, Exponent, Scale, Mantissa;
    var x, y := DoubleSig(a), DoubleSig(b);
    SigRange(a);
    SigRange(b);
    hide DoubleSig;
    if Exponent(a) < Exponent(b) {
      BinadesApart(Negative(a), TWO_52, x, y, Exponent(a) - 1075, Exponent(b) - 1075);
    } else if Exponent(b) < Exponent(a) {
      BinadesApart(Negative(a), TWO_52, y, x, Exponent(b) - 1075, Exponent(a) - 1075);
    } else {
      ScaleLess(SignedInt(Negative(a), x), SignedInt(Negative(a), y), Exponent(a) - 1075);
      ScaleLess(SignedInt(Negative(a), y), SignedInt(Negative(a), x), Exponent(a) - 1075);
      SameSig(a, b);
    }
  }

  lemma {:induction false} SameSig(a: nat, b: nat)
    requires IsDouble(a) && IsDouble(b)
    requires Negative(a) == Negative(b) && Exponent(a) == Exponent(b) && DoubleSig(a) == DoubleSig(b)
    ensures a == b
  {
    hide Negative, Exponent, Mantissa;
    Unpacked(a);
    Unpacked(b);
  }

  lemma {:induction false} BinadesApart(neg: bool, base: nat, x: nat, y: nat, k: int, k': int)
    requires k < k' && x < 2 * base <= 2 * y
    ensures Scale(SignedInt(neg, x), k) != Scale(SignedInt(neg, y), k')
  {
    hide Scale;
    ScaleStep(base, k);
    ScaleLess(x, 2 * base, k);
    ScaleGrows(base, k + 1, k');
    ScaleLess(y, base, k');
    ScaleZero(k);
    ScaleZero(k');
    ScaleMinus(0, x, k);
    ScaleMinus(0, y, k');
  }

  /** cbor_h2d on a half that is not a NaN. */
  function WidenHalf(h: nat): nat
    requires IsHalf(h) && (HalfFinite(h) || HalfMantissa(h) == 0)
  {
    if HalfExponent(h) == 31 then Pack(HalfNegative(h), 2047, 0)
    else
      HalfSigBound(h);
      Exact(HalfNegative(h), HalfSig(h), HalfScale(h) - 25)
  }

  lemma {:induction false} WidenHalfValue(h: nat)
    requires IsHalf(h) && HalfFinite(h)
    ensures var b := WidenHalf(h);
      IsDouble(b) && Finite(b) && Negative(b) == HalfNegative(h) && DoubleValue(b) == HalfValue(h)
  {
    hide Exact, HalfSig, HalfNegative, Negative, Scale, Finite, Exponent, DoubleValue;
    HalfSigBound(h);
    ExactValue(HalfNegative(h), HalfSig(h), HalfScale(h) - 25);
  }

  lemma {:induction false} HalfDetermines(a: nat, b: nat)
    requires IsHalf(a) && IsHalf(b) && HalfFinite(a) && HalfFinite(b)
    requires HalfNegative(a) == HalfNegative(b) && HalfValue(a) == HalfValue(b)
    ensures a == b
  {
    hide Scale;
    var neg, x, y, k, k' := HalfNegative(a), HalfSig(a), HalfSig(b), HalfScale(a) - 25, HalfScale(b) - 25;
    if k < k' {
      BinadesApart(neg, 1024, x, y, k, k');
    } else if k' < k {
      BinadesApart(neg, 1024, y, x, k', k);
    } else {
      ScaleLess(SignedInt(neg, x), SignedInt(neg, y), k);
      ScaleLess(SignedInt(neg, y), SignedInt(neg, x), k);
    }
  }

  lemma {:induction false} HalvesBelow65520(h: nat)
    requires HalfFinite(h)
    ensures Apart(HalfValue(h), 0.0) < 65520.0
  {
    hide Scale, HalfNegative;
    var sig, k := HalfSig(h), HalfScale(h) - 25;
    ScaleZero(k);
    ScaleApart(SignedInt(HalfNegative(h), sig), 0, k);
    ScaleGrows(sig, k, 5);
    ScaleLess(2047, sig, 5);
    ScaleShift(2047, 0, 5);
    ScaleOne(65504);
  }

  /** Every half but the NaNs survives being widened and narrowed again. */
  lemma {:induction false} HalfRoundTrip(h: nat)
    requires IsHalf(h) && (HalfFinite(h) || HalfMantissa(h) == 0)
    ensures IsDouble(WidenHalf(h)) && DoubleToHalf(WidenHalf(h)) == h
  {
    if HalfFinite(h) {
      hide WidenHalf, DoubleToHalf, DoubleValue, HalfValue, HalfFinite, Finite, Negative, HalfNegative, HalfMantissa;
      var b := WidenHalf(h);
      WidenHalfValue(h);
      HalvesBelow65520(h);
      DoubleToHalfNearest(b, h);
      HalfDetermines(DoubleToHalf(b), h);
    } else {
      PackFields(HalfNegative(h), 2047, 0);
      hide Pack, Rounded;
      InfinitePattern(h);
    }
  }

  lemma {:induction false} InfinitePattern(h: nat)
    requires IsHalf(h) && HalfExponent(h) == 31 && HalfMantissa(h) == 0
    ensures h == (if HalfNegative(h) then 0x8000 else 0) + HALF_INFINITY
  {}

  /** The test yep_cbor_float_width makes for width 2. */
  predicate FitsHalf(b: nat)
    requires IsDouble(b)
  {
    var h := DoubleToHalf(b);
    IsHalf(h) && (HalfFinite(h) || HalfMantissa(h) == 0) && WidenHalf(h) == b
  }

  /** Width 2 is chosen exactly for the doubles some half denotes. */
  lemma {:induction false} FitsHalfExactly(b: nat)
    requires IsDouble(b)
    ensures FitsHalf(b) <==>
      exists h: nat :: IsHalf(h) && (HalfFinite(h) || HalfMantissa(h) == 0) && WidenHalf(h) == b
  {
    hide WidenHalf, DoubleToHalf, HalfFinite, HalfMantissa;
    forall h: nat | IsHalf(h) && (HalfFinite(h) || HalfMantissa(h) == 0) && WidenHalf(h) == b ensures FitsHalf(b) {
      HalfRoundTrip(h);
    }
  }

  // ---- single precision ------------------------------------------------------------------------

  const TWO_23: nat := 0x80_0000
  const TWO_29: nat := 0x2000_0000
  const TWO_31: nat := 0x8000_0000

  predicate IsSingle(w: nat) { w < 2 * TWO_31 }
  predicate SingleNegative(w: nat) { w >= TWO_31 }
  function SingleExponent(w: nat): nat { w / TWO_23 % 256 }
  function SingleMantissa(w: nat): nat { w % TWO_23 }
  predicate SingleFinite(w: nat) { SingleExponent(w) != 255 }

  function SingleSig(w: nat): nat {
    if SingleExponent(w) == 0 then SingleMantissa(w) else TWO_23 + SingleMantissa(w)
  }

  function SingleScale(w: nat): nat {
    if SingleExponent(w) == 0 then 1 else SingleExponent(w)
  }

  function PackSingle(neg: bool, e: nat, man: nat): nat {
    (if neg then TWO_31 else 0) + e * TWO_23 + man
  }

  /** The double a finite single denotes. */
  function WidenSingle(w: nat): nat
    requires IsSingle(w) && SingleFinite(w)
  {
    SingleBound(w);
    Exact(SingleNegative(w), SingleSig(w), SingleScale(w) - 150)
  }

  lemma {:induction false} SingleBound(w: nat)
    ensures SingleSig(w) < 2 * TWO_23 && 0 < SingleScale(w) <= 255
    ensures SingleScale(w) > 1 ==> SingleSig(w) >= TWO_23
  {}

  /** The zero bits a double's significand must end in to fit a single. */
  function SpareBits(b: nat): nat { if Exponent(b) >= 897 then 29 else 926 - Exponent(b) }

  /** (float)d gives d back: the spare bits are zero and the exponent is in a single's range. */
  predicate FitsSingle(b: nat) {
    874 <= Exponent(b) <= 1150 && (TWO_52 + Mantissa(b)) % Pow2(SpareBits(b)) == 0
  }

  /** (float)d for a nonzero double that fits. */
  function Narrow(b: nat): nat
    requires FitsSingle(b)
  {
    var sig: nat := (TWO_52 + Mantissa(b)) / Pow2(SpareBits(b));
    if Exponent(b) >= 897 then
      (if Negative(b) then TWO_31 else 0) + (Exponent(b) - 896) * TWO_23 + sig - TWO_23
    else PackSingle(Negative(b), 0, sig)
  }

  lemma {:induction false} SinglePackFields(neg: bool, e: nat, man: nat)
    requires e < 256 && man < TWO_23
    ensures var w := PackSingle(neg, e, man);
      IsSingle(w) && SingleNegative(w) == neg && SingleExponent(w) == e && SingleMantissa(w) == man
  {}

  lemma {:induction false} SingleUnpacked(w: nat)
    requires IsSingle(w)
    ensures w == PackSingle(SingleNegative(w), SingleExponent(w), SingleMantissa(w)) && SingleExponent(w) < 256
  {}

  lemma {:induction false} Pow2Of29And30()
    ensures Pow2(29) == TWO_29 && Pow2(30) == 2 * TWO_29 && Pow2(28) * 2 == TWO_29
  {
    Powers();
    Pow2Sum(29, 12);
    Pow2Step(29);
    Pow2Step(28);
    assert Pow2(12) == 4096;
  }

  /** What a fitting double's significand is made of. */
  lemma {:induction false} SpareSplit(b: nat) returns (sig: nat)
    requires FitsSingle(b)
    ensures DoubleSig(b) == sig * Pow2(SpareBits(b)) && sig == (TWO_52 + Mantissa(b)) / Pow2(SpareBits(b))
    ensures if Exponent(b) >= 897 then TWO_23 <= sig < 2 * TWO_23 else sig < TWO_23
  {
    hide Pow2, Exponent, Mantissa;
    MantissaBound(b);
    var full, j := TWO_52 + Mantissa(b), SpareBits(b);
    Euclid(full, Pow2(j));
    sig := full / Pow2(j);
    Pow2Of29And30();
    if Exponent(b) < 897 {
      Pow2Grows(30, j);
      QuotientBelow(full, Pow2(j), TWO_23);
    }
  }

  lemma {:induction false} MantissaBound(b: nat)
    ensures Mantissa(b) < TWO_52
  {}

  lemma {:induction false} WidenSingleValue(w: nat)
    requires IsSingle(w) && SingleFinite(w)
    ensures var b := WidenSingle(w);
      && IsDouble(b) && Finite(b) && Negative(b) == SingleNegative(w)
      && DoubleValue(b) == Scale(SignedInt(SingleNegative(w), SingleSig(w)), SingleScale(w) - 150)
  {
    hide Exact, SingleSig, SingleNegative, Negative, Scale, Finite, Exponent, DoubleValue;
    SingleBound(w);
    ExactValue(SingleNegative(w), SingleSig(w), SingleScale(w) - 150);
  }

  /** The single the code writes has the same value. */
  lemma {:induction false} NarrowWidens(b: nat)
    requires IsDouble(b) && FitsSingle(b)
    ensures IsSingle(Narrow(b)) && SingleFinite(Narrow(b)) && WidenSingle(Narrow(b)) == b
  {
    var w := Narrow(b);
    var sig := SpareSplit(b);
    var e: nat := if Exponent(b) >= 897 then Exponent(b) - 896 else 0;
    var man: nat := if Exponent(b) >= 897 then sig - TWO_23 else sig;
    assert w == PackSingle(Negative(b), e, man);
    SinglePackFields(Negative(b), e, man);
    hide Narrow, WidenSingle, Pow2, Exponent, Mantissa, Negative, Scale, DoubleSig, PackSingle;
    WidenSingleValue(w);
    ScaleShift(SignedInt(Negative(b), sig), Exponent(b) - 1075, SpareBits(b));
    SignedTimes(Negative(b), sig, Pow2(SpareBits(b)));
    ValueDetermines(WidenSingle(w), b);
  }

  /** Bounds on a product with a power of two bound the power. */
  lemma {:induction false} ShiftRange(sig: nat, j: nat)
    requires 0 < sig < 2 * TWO_23 && TWO_52 <= sig * Pow2(j) < 2 * TWO_52
    ensures 29 <= j <= 52
    ensures sig >= TWO_23 ==> j == 29
    ensures sig < TWO_23 ==> j >= 30
  {
    hide Pow2;
    Pow2Of29And30();
    Powers();
    if j <= 28 {
      Pow2Grows(j, 28);
      ProductBelow(sig, 2 * TWO_23 - 1, Pow2(j), Pow2(28));
    } else if j == 29 {
    } else {
      Pow2Grows(30, j);
      if sig >= TWO_23 { ProductBelow(TWO_23, sig, Pow2(30), Pow2(j)); }
      if j >= 53 {
        Pow2Grows(53, j);
        ProductBelow(1, sig, Pow2(53), Pow2(j));
      }
    }
  }

  /** Only values below the smallest normal double stay unnormalized. */
  lemma {:induction false} ExactNormal(neg: bool, sig: nat, k: int)
    requires sig < 2 * TWO_52 && -1074 <= k <= 971 && TWO_52 <= sig * Pow2(k + 1074)
    ensures Exponent(Exact(neg, sig, k)) > 0
    decreases k + 1074
  {
    hide Pack, Exponent, Mantissa, Pow2;
    if sig >= TWO_52 {
      PackFields(neg, k + 1075, sig - TWO_52);
    } else if k == -1074 {
      PowZero();
    } else {
      Pow2Step(k + 1073);
      DoubledInt(sig, Pow2(k + 1073));
      Associate(2, sig, Pow2(k + 1073));
      ExactNormal(neg, 2 * sig, k - 1);
    }
  }

  /** Every single but zero, infinity and the NaNs survives being widened and narrowed again. */
  lemma {:induction false} SingleRoundTrip(w: nat)
    requires IsSingle(w) && SingleFinite(w) && SingleSig(w) > 0
    ensures FitsSingle(WidenSingle(w)) && Narrow(WidenSingle(w)) == w
  {
    hide Exact, Pow2, Exponent, Mantissa, Scale, Finite, Negative, SingleNegative, SingleExponent, SingleMantissa, PackSingle;
    SingleBound(w);
    var neg, sig, k := SingleNegative(w), SingleSig(w), SingleScale(w) - 150;
    var b := WidenSingle(w);
    WidenSingleValue(w);
    Powers();
    Pow2Grows(53, k + 1074);
    ProductBelow(1, sig, Pow2(53), Pow2(k + 1074));
    ExactNormal(neg, sig, k);
    var j := ExactShift(neg, sig, k);
    MantissaBound(b);
    ShiftRange(sig, j);
    SingleUnpacked(w);
    NarrowFrom(b, w, sig, j);
  }

  lemma {:induction false} NarrowFrom(b: nat, w: nat, sig: nat, j: nat)
    requires IsSingle(w) && SingleFinite(w) && sig == SingleSig(w) && Negative(b) == SingleNegative(w)
    requires Exponent(b) == SingleScale(w) + 925 - j && DoubleSig(b) == sig * Pow2(j)
    requires 29 <= j <= 52 && (sig >= TWO_23 ==> j == 29) && (sig < TWO_23 ==> j >= 30)
    ensures FitsSingle(b) && Narrow(b) == w
  {
    hide Pow2, Exponent, Mantissa, Negative, SingleNegative, SingleExponent, SingleMantissa;
    SingleUnpacked(w);
    SingleMantissaBound(w);
    DivisionUnique(sig * Pow2(j), Pow2(j), sig, 0);
    assert SpareBits(b) == j;
  }

  lemma {:induction false} SingleMantissaBound(w: nat)
    ensures SingleMantissa(w) < TWO_23
  {}

  /** Width 4 is considered exactly for the doubles some nonzero single denotes. */
  lemma {:induction false} FitsSingleExactly(b: nat)
    requires IsDouble(b)
    ensures FitsSingle(b) <==>
      exists w: nat :: IsSingle(w) && SingleFinite(w) && SingleSig(w) > 0 && WidenSingle(w) == b
  {
    hide WidenSingle, Narrow, SingleFinite, SingleSig;
    forall w: nat | IsSingle(w) && SingleFinite(w) && SingleSig(w) > 0 && WidenSingle(w) == b ensures FitsSingle(b) {
      SingleRoundTrip(w);
    }
    if FitsSingle(b) {
      NarrowWidens(b);
      NarrowNonzero(b);
    }
  }

  lemma {:induction false} NarrowNonzero(b: nat)
    requires IsDouble(b) && FitsSingle(b) && SingleFinite(Narrow(b))
    ensures SingleSig(Narrow(b)) > 0
  {
    hide WidenSingle, FitsSingle, Narrow, Exponent, Mantissa, Negative, Scale, SingleNegative;
    var w := Narrow(b);
    NarrowWidens(b);
    if SingleSig(w) == 0 {
      WidenSingleValue(w);
      ScaleZero(SingleScale(w) - 150);
      NonzeroValue(b);
    }
  }

  lemma {:induction false} NonzeroValue(b: nat)
    requires FitsSingle(b)
    ensures DoubleValue(b) != 0.0
  {
    hide Pow2, Exponent, Negative, Scale;
    ScaleZero(Exponent(b) - 1075);
    ScaleLess(SignedInt(Negative(b), DoubleSig(b)), 0, Exponent(b) - 1075);
    ScaleLess(0, SignedInt(Negative(b), DoubleSig(b)), Exponent(b) - 1075);
  }
}
