/** Bytes, big-endian numbers and decimal text: what the codecs write and read. */
module Bytes {
  type byte = b: int | 0 <= b < 256

  const TWO_64: nat := 0x1_0000_0000_0000_0000
  const INT64_MAX: nat := 0x7FFF_FFFF_FFFF_FFFF

  /** The bytes of an ASCII literal. */
  function Ascii(s: string): (r: seq<byte>)
    requires forall i :: 0 <= i < |s| ==> s[i] < 128 as char
    ensures |r| == |s|
  {
    seq(|s|, i requires 0 <= i < |s| => s[i] as int)
  }

  /** The bytes of s stand at position i. */
  predicate Stands(p: seq<byte>, i: nat, s: seq<byte>) {
    i + |s| <= |p| && p[i..i + |s|] == s
  }

  lemma StandsSplit(p: seq<byte>, i: nat, a: seq<byte>, b: seq<byte>)
    requires Stands(p, i, a + b)
    ensures Stands(p, i, a) && Stands(p, i + |a|, b)
  {
    var s := p[i..i + |a + b|];
    assert s[..|a|] == a && s[|a|..] == b;
  }

  // ---- big-endian ---------------------------------------------------------

  function Power256(n: nat): (p: nat)
    ensures p > 0
  {
    if n == 0 then 1 else 256 * Power256(n - 1)
  }

  /** The number a byte string spells in network order. */
  function BigEndian(s: seq<byte>): (v: nat)
    ensures v < Power256(|s|)
  {
    if s == [] then 0 else BigEndian(s[..|s| - 1]) * 256 + s[|s| - 1]
  }

  /** v in n bytes, network order. */
  function ToBigEndian(v: nat, n: nat): (s: seq<byte>)
    ensures |s| == n
  {
    if n == 0 then [] else ToBigEndian(v / 256, n - 1) + [v % 256]
  }

  lemma {:induction false} BigEndianRoundTrip(v: nat, n: nat)
    requires v < Power256(n)
    ensures BigEndian(ToBigEndian(v, n)) == v
  {
    if n > 0 {
      BigEndianRoundTrip(v / 256, n - 1);
      var s := ToBigEndian(v, n);
      assert s[..|s| - 1] == ToBigEndian(v / 256, n - 1);
    }
  }

  lemma Powers()
    ensures Power256(1) == 0x100 && Power256(2) == 0x1_0000
    ensures Power256(4) == 0x1_0000_0000 && Power256(8) == TWO_64
  {
    assert Power256(2) == 0x1_0000;
    assert Power256(4) == 256 * (256 * Power256(2));
    assert Power256(6) == 256 * (256 * Power256(4));
    assert Power256(8) == 256 * (256 * Power256(6));
  }

  // ---- little-endian ------------------------------------------------------------

  function LittleEndian(s: seq<byte>): (v: nat)
    ensures v < Power256(|s|)
  {
    if s == [] then 0 else s[0] + 256 * LittleEndian(s[1..])
  }

  /** v in n bytes, low byte first; what does not fit is lost. */
  function ToLittleEndian(v: nat, n: nat): (s: seq<byte>)
    ensures |s| == n
  {
    if n == 0 then [] else [v % 256] + ToLittleEndian(v / 256, n - 1)
  }

  lemma {:induction false} LittleEndianRoundTrip(v: nat, n: nat)
    requires v < Power256(n)
    ensures LittleEndian(ToLittleEndian(v, n)) == v
  {
    if n > 0 {
      LittleEndianRoundTrip(v / 256, n - 1);
      assert ToLittleEndian(v, n)[1..] == ToLittleEndian(v / 256, n - 1);
    }
  }

  // ---- decimal text ---------------------------------------------------------

  predicate IsDigit(c: byte) { 0x30 <= c <= 0x39 }

  predicate AllDigits(s: seq<byte>) { forall i :: 0 <= i < |s| ==> IsDigit(s[i]) }

  /** v in decimal, no leading zero. */
  function Decimal(v: nat): (s: seq<byte>)
    ensures |s| > 0 && forall i :: 0 <= i < |s| ==> IsDigit(s[i])
  {
    if v < 10 then [0x30 + v] else Decimal(v / 10) + [0x30 + v % 10]
  }

  /** The number a run of digits spells. */
  function DigitsValue(s: seq<byte>): nat
    requires forall i :: 0 <= i < |s| ==> IsDigit(s[i])
  {
    if s == [] then 0
    else
      assert IsDigit(s[|s| - 1]);
      DigitsValue(s[..|s| - 1]) * 10 + (s[|s| - 1] as int - 0x30)
  }

  lemma {:induction false} DecimalRoundTrip(v: nat)
    ensures DigitsValue(Decimal(v)) == v
    ensures v > 0 ==> Decimal(v)[0] != 0x30
  {
    var s := Decimal(v);
    if v >= 10 {
      DecimalRoundTrip(v / 10);
      assert s[..|s| - 1] == Decimal(v / 10);
    } else {
      assert s[..0] == [];
    }
  }

  function Power10(n: nat): (p: nat)
    ensures p > 0
  {
    if n == 0 then 1 else 10 * Power10(n - 1)
  }

  /** A number below 10^n takes at most n digits. */
  lemma {:induction false} DecimalLength(v: nat, n: nat)
    requires n > 0 && v < Power10(n)
    ensures |Decimal(v)| <= n
  {
    if v >= 10 { DecimalLength(v / 10, n - 1); }
  }

  lemma PowerPlaces(v: nat, k: nat)
    ensures v / Power10(k + 1) == v / 10 / Power10(k)
  {
    TenTimes(v, v / 10, Power10(k));
  }

  lemma TenTimes(v: nat, w: nat, p: nat)
    requires w == v / 10 && p > 0
    ensures v / (10 * p) == w / p
  {
    var q, r, u := w / p, w % p, v % 10;
    TensRegrouped(q, p, r, u);
    QuotientIs(v, 10 * p, q, 10 * r + u);
  }

  lemma TensRegrouped(q: nat, p: nat, r: nat, u: nat)
    ensures 10 * (q * p + r) + u == q * (10 * p) + (10 * r + u)
  {}

  lemma QuotientIs(v: nat, d: nat, q: nat, r: nat)
    requires v == q * d + r && r < d
    ensures v / d == q
  {
    var w := v / d - q;
    assert w * d == (v / d) * d - q * d;
    Multiples(w, d);
  }

  lemma Multiples(x: int, d: nat)
    ensures (x >= 1 ==> x * d >= d) && (x <= -1 ==> x * d <= 0 - d)
  {}

  /** Each place holds its digit, the highest one is no zero, and no place is missing. */
  lemma {:induction false} DecimalPlaces(v: nat, k: nat)
    requires k < |Decimal(v)|
    ensures DecimalAt(v, k) == 0x30 + v / Power10(k) % 10
    ensures v < Power10(|Decimal(v)|) && (|Decimal(v)| > 1 ==> Power10(|Decimal(v)| - 1) <= v)
    decreases v
  {
    hide Power10, DecimalAt;
    PowerUp(0);
    LastPlace(v);
    if v >= 10 {
      var n := |Decimal(v / 10)|;
      DecimalPlaces(v / 10, if k > 0 then k - 1 else 0);
      PowerUp(n);
      PowerUp(n - 1);
      if k > 0 {
        PowerPlaces(v, k - 1);
        HigherPlace(v, k);
      }
    }
  }

  /** The k-th digit of v from the right. */
  function DecimalAt(v: nat, k: nat): nat
    requires k < |Decimal(v)|
  {
    Decimal(v)[|Decimal(v)| - 1 - k]
  }

  lemma LastPlace(v: nat)
    ensures DecimalAt(v, 0) == 0x30 + v % 10
  {}

  lemma HigherPlace(v: nat, k: nat)
    requires v >= 10 && 0 < k < |Decimal(v)|
    ensures k - 1 < |Decimal(v / 10)| && DecimalAt(v, k) == DecimalAt(v / 10, k - 1)
  {}

  lemma PowerUp(n: int)
    ensures Power10(0) == 1 && (n >= 0 ==> Power10(n + 1) == 10 * Power10(n))
  {}

  lemma Uint64Digits(v: nat)
    requires v < TWO_64
    ensures |Decimal(v)| <= 20
  {
    Power10Plus(5, 5);
    Power10Plus(10, 10);
    assert Power10(5) == 100000;
    DecimalLength(v, 20);
  }

  lemma {:induction false} Power10Plus(a: nat, b: nat)
    ensures Power10(a + b) == Power10(a) * Power10(b)
  {
    if a > 0 { Power10Plus(a - 1, b); assert (a - 1) + b == (a + b) - 1; }
  }

  /** The canonical text of a signed number. */
  function SignedDecimal(negative: bool, mag: nat): seq<byte> {
    if negative then [0x2D] + Decimal(mag) else Decimal(mag)
  }
}
