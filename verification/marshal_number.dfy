/** Integers in Marshal 4.8: the long form, 'i' integers and 'l' bignums, spelt and read back. */
module MarshalNumber {
  import opened PowersOfTwo
  import opened Bytes

  const INT64_MIN: int := -0x8000_0000_0000_0000

  // ---- the long form ----------------------------------------------------------------

  /** The least number of bytes that hold m. */
  function Width(m: nat): (k: nat)
    ensures m < Power256(k)
    ensures m > 0 ==> k > 0 && Power256(k - 1) <= m
  {
    if m == 0 then 0
    else
      var k := Width(m / 256);
      assert m / 256 > 0 ==> Power256(k) == 256 * Power256(k - 1);
      assert m / 256 == 0 ==> k == 0;
      k + 1
  }

  function Magnitude(x: int): nat { if x < 0 then -x else x }

  function LongPayload(x: int, k: nat): (p: nat)
    requires k == Width(Magnitude(x))
    ensures p < Power256(k)
  {
    if x < 0 then Power256(k) - Magnitude(x) else x
  }

  /** e_long, for every x above INT64_MIN. */
  function LongBytes(x: int): (s: seq<byte>)
    requires INT64_MIN < x < -INT64_MIN
  {
    var m := Magnitude(x);
    if x == 0 then [0]
    else if m <= 122 then [if x < 0 then 256 - (m + 5) else m + 5]
    else
      var k := Width(m);
      WidthOfInt64(m);
      [if x < 0 then 256 - k else k] + ToLittleEndian(LongPayload(x, k), k)
  }

  lemma WidthOfInt64(m: nat)
    requires m < TWO_64
    ensures Width(m) <= 8
  {
    Powers();
    if Width(m) > 8 { Power256Mono(8, Width(m) - 1); }
  }

  lemma {:induction false} Power256Mono(a: nat, b: nat)
    requires a <= b
    ensures Power256(a) <= Power256(b)
  {
    if a < b { Power256Mono(a, b - 1); }
  }

  datatype Long = Long(x: int, used: nat) | Short | OutOfWidth

  function ReadPayload(s: seq<byte>, k: nat, borrow: nat): (r: Long) {
    if |s| < 1 + k then Short else Long(LittleEndian(s[1..1 + k]) - borrow, 1 + k)
  }

  /** cm_long. A lead byte of 128 makes it shift past the width of its accumulator. */
  function ReadLong(s: seq<byte>): (r: Long)
    ensures r.Long? ==> 0 < r.used <= |s|
  {
    if s == [] then Short
    else
      var b := s[0];
      if b == 0 then Long(0, 1)
      else if b <= 4 then ReadPayload(s, b, 0)
      else if b <= 127 then Long(b - 5, 1)
      else if b == 128 then OutOfWidth
      else if b <= 250 then Long(b as int - 251, 1)
      else ReadPayload(s, 256 - b, Power256(256 - b))
  }

  /** cm_long takes back what e_long wrote, and nothing after it, exactly between -2^40 and 2^32. */
  lemma LongRoundTrip(x: int, rest: seq<byte>)
    requires INT64_MIN < x < -INT64_MIN
    ensures ReadLong(LongBytes(x) + rest) == Long(x, |LongBytes(x)|)
         <==> -0x100_0000_0000 < x < 0x1_0000_0000
  {
    var m := Magnitude(x);
    var s := LongBytes(x) + rest;
    if m > 122 {
      var k := Width(m);
      WidthOfInt64(m);
      var p := LongPayload(x, k);
      assert s[0] == (if x < 0 then 256 - k else k);
      assert s[1..1 + k] == ToLittleEndian(p, k);
      LittleEndianRoundTrip(p, k);
      Powers();
      assert Power256(5) == 256 * Power256(4);
      WidthAtMost(m, if x < 0 then 5 else 4);
    }
  }

  lemma WidthAtMost(m: nat, k: nat)
    requires m > 0
    ensures Width(m) <= k <==> m < Power256(k)
  {
    if Width(m) <= k { Power256Mono(Width(m), k); } else { Power256Mono(k, Width(m) - 1); }
  }

  // ---- limbs ----------------------------------------------------------------------------

  type limb = x: int | 0 <= x < 65536

  function Power65536(n: nat): (p: nat)
    ensures p > 0
  {
    if n == 0 then 1 else 65536 * Power65536(n - 1)
  }

  /** How many limbs v takes; zero takes one. */
  function LimbCount(v: nat): (n: nat)
    ensures n >= 1 && v < Power65536(n)
    ensures n > 1 ==> Power65536(n - 1) <= v
  {
    if v < 65536 then assert Power65536(1) == 65536 * Power65536(0); 1
    else
      var n := LimbCount(v / 65536);
      assert n > 1 ==> Power65536(n) == 65536 * Power65536(n - 1);
      assert n == 1 ==> Power65536(n) == 65536 * Power65536(0);
      n + 1
  }

  lemma {:induction false} Power65536Mono(a: nat, b: nat)
    requires a <= b
    ensures Power65536(a) <= Power65536(b)
  {
    if a < b { Power65536Mono(a, b - 1); }
  }

  lemma {:induction false} LimbsAreBytePairs(n: nat)
    ensures Power65536(n) == Power256(2 * n)
  {
    if n > 0 {
      LimbsAreBytePairs(n - 1);
      assert Power256(2 * n) == 256 * (256 * Power256(2 * (n - 1)));
    }
  }

  /** The limb count is the only one with nothing lost and no zero limb on top. */
  lemma LimbCountIs(v: nat, n: nat)
    requires n >= 1 && v < Power65536(n) && (n == 1 || Power65536(n - 1) <= v)
    ensures LimbCount(v) == n
  {
    var c := LimbCount(v);
    if c < n { Power65536Mono(c, n - 1); }
    if n < c { Power65536Mono(n, c - 1); }
  }

  /** Marshal's 'l': sign, limb count, limbs low first. */
  function BignumBytes(negative: bool, v: nat): (s: seq<byte>)
    requires LimbCount(v) < 0x1_0000_0000
  {
    var n := LimbCount(v);
    [0x6C, if negative then 0x2D else 0x2B] + LongBytes(n) + ToLittleEndian(v, 2 * n)
  }

  // ---- e_int ------------------------------------------------------------------------------

  lemma Int64Limbs(m: nat)
    requires m < TWO_64
    ensures LimbCount(m) <= 4
  {
    LimbsAreBytePairs(4);
    Powers();
    if LimbCount(m) > 4 { Power65536Mono(4, LimbCount(m) - 1); }
  }

  /** e_int. */
  function IntBytes(x: int): (s: seq<byte>)
    requires INT64_MIN <= x < -INT64_MIN
  {
    if Magnitude(x) < 0x4000_0000 then [0x69] + LongBytes(x)
    else Int64Limbs(Magnitude(x)); BignumBytes(x < 0, Magnitude(x))
  }

  function Sign(negative: bool, v: nat): int { if negative then -(v as int) else v }

  datatype Integer = Integer(x: int, used: nat) | Refused

  function ReadLimbs(s: seq<byte>, negative: bool): (r: Integer) {
    match ReadLong(s)
    case Long(n, u) =>
      if n < 1 || 2 * n > |s| - u || n > 4 then Refused
      else
        var v := LittleEndian(s[u..u + 2 * n]);
        Integer(Sign(negative, v), u + 2 * n)
    case _ => Refused
  }

  /** What the 'i' and 'l' arms of cm_value make of a stream. */
  function ReadInteger(s: seq<byte>): (r: Integer) {
    if s == [] then Refused
    else if s[0] == 0x69 then
      match ReadLong(s[1..])
      case Long(x, u) => Integer(x, 1 + u)
      case _ => Refused
    else if s[0] != 0x6C || |s| < 2 || (s[1] != 0x2B && s[1] != 0x2D) then Refused
    else
      match ReadLimbs(s[2..], s[1] == 0x2D)
      case Integer(x, u) => Integer(x, 2 + u)
      case Refused => Refused
  }

  /** A bignum is read back exactly when it has at most four limbs, that is below 2^64. */
  lemma BignumRoundTrip(negative: bool, v: nat, rest: seq<byte>)
    requires LimbCount(v) < 0x1_0000_0000
    ensures ReadInteger(BignumBytes(negative, v) + rest)
         == (if v < TWO_64 then Integer(Sign(negative, v), |BignumBytes(negative, v)|) else Refused)
  {
    hide LimbCount, LongBytes, ToLittleEndian, LittleEndian, Power256, Power65536, ReadLimbs, ReadLong, ReadInteger, Width;
    var n := LimbCount(v);
    ReadLimbsBack(negative, v, n, rest);
    FourLimbs(v);
    var tail := LongBytes(n) + (ToLittleEndian(v, 2 * n) + rest);
    ReadTagged(if negative then 0x2D else 0x2B, tail);
    assert BignumBytes(negative, v) + rest == [0x6C, if negative then 0x2D else 0x2B] + tail;
  }

  lemma ReadTagged(sign: byte, tail: seq<byte>)
    requires sign == 0x2B || sign == 0x2D
    ensures ReadInteger([0x6C, sign] + tail)
         == match ReadLimbs(tail, sign == 0x2D)
            case Integer(x, u) => Integer(x, 2 + u)
            case Refused => Refused
  {
    assert ([0x6C, sign] + tail)[2..] == tail;
    hide ReadLimbs, ReadLong;
  }

  lemma ReadLimbsBack(negative: bool, v: nat, n: nat, rest: seq<byte>)
    requires n == LimbCount(v) < 0x1_0000_0000
    ensures ReadLimbs(LongBytes(n) + (ToLittleEndian(v, 2 * n) + rest), negative)
         == (if n <= 4 then Integer(Sign(negative, v), |LongBytes(n)| + 2 * n) else Refused)
  {
    var digits := ToLittleEndian(v, 2 * n);
    var s := LongBytes(n) + (digits + rest);
    LongRoundTrip(n, digits + rest);
    var u := |LongBytes(n)|;
    assert s[u..u + 2 * n] == digits;
    LimbsAreBytePairs(n);
    LittleEndianRoundTrip(v, 2 * n);
    hide LongBytes, ToLittleEndian, LimbCount, Power256, Power65536;
  }

  lemma FourLimbs(v: nat)
    ensures LimbCount(v) <= 4 <==> v < TWO_64
  {
    if v < TWO_64 { Int64Limbs(v); }
    else {
      LimbsAreBytePairs(4);
      Powers();
      if LimbCount(v) <= 4 { Power65536Mono(LimbCount(v), 4); }
    }
  }

  /** Every int64 the writer spells is the int64 the reader takes. */
  lemma IntRoundTrip(x: int, rest: seq<byte>)
    requires INT64_MIN <= x < -INT64_MIN
    ensures ReadInteger(IntBytes(x) + rest) == Integer(x, |IntBytes(x)|)
  {
    hide LongBytes, LimbCount, ReadLong, ReadLimbs, BignumBytes;
    if Magnitude(x) < 0x4000_0000 {
      LongRoundTrip(x, rest);
      assert (IntBytes(x) + rest)[1..] == LongBytes(x) + rest;
    } else {
      Int64Limbs(Magnitude(x));
      BignumRoundTrip(x < 0, Magnitude(x), rest);
    }
  }

  // ---- integer text beyond int64 ----------------------------------------------------------------

  predicate IsSeparator(c: byte) { c == 0x5F || c == 0x2C }

  predicate Signed(p: seq<byte>) { p != [] && (p[0] == 0x2D || p[0] == 0x2B) }

  function Body(p: seq<byte>): seq<byte> { if Signed(p) then p[1..] else p }

  predicate DigitAt(p: seq<byte>, i: nat)
    requires i < |p|
  {
    IsDigit(p[i]) || (IsSeparator(p[i]) && i + 1 < |p| && IsDigit(p[i + 1]))
  }

  /** psych_int_text. */
  predicate PsychInt(p: seq<byte>) {
    var b := Body(p);
    b != [] && b[0] != 0x30 && forall i :: 0 <= i < |b| ==> DigitAt(b, i)
  }

  /** Digits, each but the first optionally behind one separator. */
  predicate Digits(b: seq<byte>) {
    b != [] && IsDigit(b[0]) && (|b| == 1 || Digits(b[1..]) || (IsSeparator(b[1]) && |b| > 2 && Digits(b[2..])))
  }

  /** The shape psych_int_text is documented to accept: separators between digits only, no leading zero. */
  predicate DocumentedInt(p: seq<byte>) {
    Digits(Body(p)) && Body(p)[0] != 0x30
  }

  lemma {:induction false} DigitsAt(b: seq<byte>)
    requires b != []
    ensures Digits(b) <==> IsDigit(b[0]) && forall i :: 0 <= i < |b| ==> DigitAt(b, i)
  {
    if |b| > 1 && IsDigit(b[0]) {
      if IsSeparator(b[1]) {
        if |b| > 2 {
          DigitsAt(b[2..]);
          assert DigitAt(b, 1) <==> IsDigit(b[2]);
          Shift(b, 2);
        } else {
          assert !DigitAt(b, 1);
        }
      } else {
        DigitsAt(b[1..]);
        Shift(b, 1);
        assert DigitAt(b, 1) ==> IsDigit(b[1]);
      }
    }
  }

  lemma Shift(b: seq<byte>, k: nat)
    requires k < |b|
    ensures (forall i :: 0 <= i < |b[k..]| ==> DigitAt(b[k..], i)) <==> (forall i :: k <= i < |b| ==> DigitAt(b, i))
  {
    forall i | k <= i < |b|
      ensures DigitAt(b, i) <==> DigitAt(b[k..], i - k)
    {
    }
    if forall i :: 0 <= i < |b[k..]| ==> DigitAt(b[k..], i) {
      forall i | k <= i < |b| ensures DigitAt(b, i) { assert DigitAt(b[k..], i - k); }
    }
    if forall i :: k <= i < |b| ==> DigitAt(b, i) {
      forall i | 0 <= i < |b[k..]| ensures DigitAt(b[k..], i) { assert DigitAt(b, i + k); }
    }
  }

  /** The test also accepts one separator in front of the digits, leading zeros behind it included. */
  lemma PsychIntExactly(p: seq<byte>)
    ensures PsychInt(p) <==>
            DocumentedInt(p) || (|Body(p)| > 1 && IsSeparator(Body(p)[0]) && Digits(Body(p)[1..]))
  {
    var b := Body(p);
    if b != [] {
      DigitsAt(b);
      if |b| > 1 && IsSeparator(b[0]) {
        DigitsAt(b[1..]);
        Shift(b, 1);
        assert DigitAt(b, 0) <==> IsDigit(b[1]);
      } else if !IsDigit(b[0]) {
        assert !DigitAt(b, 0);
      }
    }
  }

  /** The digits of the text, separators dropped. */
  function DigitsOf(b: seq<byte>): (d: seq<byte>)
    requires forall i :: 0 <= i < |b| ==> IsDigit(b[i]) || IsSeparator(b[i])
    ensures |d| <= |b| && forall i :: 0 <= i < |d| ==> IsDigit(d[i])
  {
    if b == [] then []
    else
      var d := DigitsOf(b[..|b| - 1]);
      if IsSeparator(b[|b| - 1]) then d else d + [b[|b| - 1]]
  }

  /** The number a text of digits and separators denotes. */
  function TextValue(b: seq<byte>): (v: nat)
    requires forall i :: 0 <= i < |b| ==> IsDigit(b[i]) || IsSeparator(b[i])
    ensures v < Power10(|b|)
  {
    DigitsBound(DigitsOf(b));
    Power10Mono(|DigitsOf(b)|, |b|);
    DigitsValue(DigitsOf(b))
  }

  lemma {:induction false} DigitsBound(s: seq<byte>)
    requires forall i :: 0 <= i < |s| ==> IsDigit(s[i])
    ensures DigitsValue(s) < Power10(|s|)
  {
    if s != [] {
      DigitsBound(s[..|s| - 1]);
      assert IsDigit(s[|s| - 1]);
    }
  }

  lemma {:induction false} Power10Mono(a: nat, b: nat)
    requires a <= b
    ensures Power10(a) <= Power10(b)
  {
    if a < b { Power10Mono(a, b - 1); }
  }

  /** One more character: a separator changes nothing, a digit multiplies by ten and adds. */
  lemma TextValueStep(b: seq<byte>, i: nat)
    requires i < |b| && forall k :: 0 <= k < |b| ==> IsDigit(b[k]) || IsSeparator(b[k])
    ensures TextValue(b[..i + 1])
         == (if IsSeparator(b[i]) then TextValue(b[..i]) else TextValue(b[..i]) * 10 + (b[i] as int - 0x30))
  {
    var c := b[..i + 1];
    assert c[..|c| - 1] == b[..i];
    if !IsSeparator(b[i]) {
      var d := DigitsOf(c);
      assert d[..|d| - 1] == DigitsOf(b[..i]);
    }
  }

  // ---- the bound on the limbs ---------------------------------------------------------------------

  /** A thousand is below 2^10. */
  lemma {:induction false} ThousandsBelow(k: nat)
    ensures Power10(3 * k) <= Pow2(10 * k)
  {
    if k > 0 {
      ThousandsBelow(k - 1);
      var m := 3 * (k - 1);
      assert 3 * k == m + 3;
      assert Power10(m + 3) == 10 * Power10(m + 2) == 100 * Power10(m + 1) == 1000 * Power10(m);
      var q := 10 * (k - 1);
      assert 10 * k == q + 10;
      Pow2Sum(10, q);
      assert Pow2(5) == 32;
      Pow2Sum(5, 5);
      assert Pow2(10) == 1024;
      Product(Power10(m), Pow2(q));
    }
  }

  lemma Product(a: nat, b: nat)
    requires a <= b
    ensures 1000 * a <= 1024 * b
  {
  }

  lemma {:induction false} LimbBits(n: nat)
    ensures Power65536(n) == Pow2(16 * n)
  {
    if n > 0 {
      LimbBits(n - 1);
      Pow2Sum(16, 16 * (n - 1));
      Pow2Sum(8, 8);
      assert Pow2(4) == 16;
      Pow2Sum(4, 4);
      assert 16 * n == 16 + 16 * (n - 1);
    }
  }

  lemma {:induction false} Pow2Mono(a: nat, b: nat)
    requires a <= b
    ensures Pow2(a) <= Pow2(b)
  {
    if a < b { Pow2Mono(a, b - 1); }
  }

  /** 1299 decimal digits stay below 271 limbs. */
  lemma DigitsFit(v: nat, n: nat)
    requires n <= 1299 && v < Power10(n)
    ensures v < Power65536(271)
    ensures LimbCount(v) <= 271
  {
    Power10Mono(n, 3 * 433);
    ThousandsBelow(433);
    Pow2Mono(10 * 433, 16 * 271);
    LimbBits(271);
    if LimbCount(v) > 271 { Power65536Mono(271, LimbCount(v) - 1); }
  }
}
