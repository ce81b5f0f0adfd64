/** The number arm: its digit run and the one-pass check, against the grammar of section 6 of RFC 8259. */
module JsonNumber {
  import opened Wrappers
  import opened JsonGrammar
  import opened JsonLexer
  import Swar
  import Words

  // ---- one pass over a number text --------------------------------------------------

  function DigitsEnd(s: seq<bv8>, k: nat): (e: nat)
    requires k <= |s|
    ensures k <= e <= |s|
    decreases |s| - k
  {
    if k < |s| && Digit(s[k]) then DigitsEnd(s, k + 1) else k
  }

  lemma {:induction false} DigitsEndIs(s: seq<bv8>, k: nat, e: nat)
    requires k <= e <= |s| && (forall x :: k <= x < e ==> Digit(s[x])) && (e < |s| ==> !Digit(s[e]))
    ensures DigitsEnd(s, k) == e
    decreases e - k
  {
    if k < e { DigitsEndIs(s, k + 1, e); }
  }

  lemma {:induction false} DigitsEndRun(s: seq<bv8>, k: nat)
    requires k <= |s|
    ensures forall x :: k <= x < DigitsEnd(s, k) ==> Digit(s[x])
    ensures DigitsEnd(s, k) < |s| ==> !Digit(s[DigitsEnd(s, k)])
    decreases |s| - k
  {
    if k < |s| && Digit(s[k]) { DigitsEndRun(s, k + 1); }
  }

  function MinusEnd(s: seq<bv8>): (m: nat)
    ensures m <= |s|
  {
    if s != [] && s[0] == 0x2D then 1 else 0
  }

  /** The end of the fraction that starts at d, None when it has no digits. */
  function FractionEnd(s: seq<bv8>, d: nat): (f: Option<nat>)
    requires d <= |s|
    ensures f.Some? ==> d <= f.value <= |s|
  {
    if d < |s| && s[d] == 0x2E then
      if DigitsEnd(s, d + 1) == d + 1 then None else Some(DigitsEnd(s, d + 1))
    else Some(d)
  }

  function SignEnd(s: seq<bv8>, f: nat): (g: nat)
    requires f < |s|
    ensures f < g <= |s|
  {
    if f + 1 < |s| && (s[f + 1] == 0x2B || s[f + 1] == 0x2D) then f + 2 else f + 1
  }

  function ExponentEnd(s: seq<bv8>, f: nat): (h: Option<nat>)
    requires f <= |s|
    ensures h.Some? ==> f <= h.value <= |s|
  {
    if f < |s| && (s[f] == 0x65 || s[f] == 0x45) then
      if DigitsEnd(s, SignEnd(s, f)) == SignEnd(s, f) then None else Some(DigitsEnd(s, SignEnd(s, f)))
    else Some(f)
  }

  /** tape_num_ok. */
  predicate Scans(s: seq<bv8>) {
    var m := MinusEnd(s);
    var d := DigitsEnd(s, m);
    && d > m && (d - m == 1 || s[m] != 0x30)
    && FractionEnd(s, d).Some?
    && ExponentEnd(s, FractionEnd(s, d).value) == Some(|s|)
  }

  lemma ScansIsNumber(s: seq<bv8>)
    requires Scans(s)
    ensures Number(s)
  {
    hide Minus, Integer, Fraction, Exponent, DigitsEnd, FractionEnd, ExponentEnd, MinusEnd;
    var m := MinusEnd(s);
    var d := DigitsEnd(s, m);
    var f := FractionEnd(s, d).value;
    IntegerSound(s);
    FractionSound(s, d);
    ExponentSound(s, f);
    var minus, whole, frac, exp := s[..m], s[m..d], s[d..f], s[f..];
    assert NumberParts(minus, whole, frac, exp);
    assert s == minus + whole + frac + exp;
  }

  lemma IntegerSound(s: seq<bv8>)
    requires var m := MinusEnd(s); var d := DigitsEnd(s, m); d > m && (d - m == 1 || s[m] != 0x30)
    ensures Minus(s[..MinusEnd(s)]) && Integer(s[MinusEnd(s)..DigitsEnd(s, MinusEnd(s))])
  {
    hide DigitsEnd;
    var m := MinusEnd(s);
    var whole := s[m..DigitsEnd(s, m)];
    DigitsEndRun(s, m);
    forall k | 0 <= k < |whole| ensures Digit(whole[k]) { assert Digit(s[m + k]); }
  }

  lemma FractionSound(s: seq<bv8>, d: nat)
    requires d <= |s| && FractionEnd(s, d).Some?
    ensures Fraction(s[d..FractionEnd(s, d).value])
  {
    var f := FractionEnd(s, d).value;
    var frac := s[d..f];
    if frac != [] {
      DigitsEndRun(s, d + 1);
      forall k | 0 <= k < |frac| - 1 ensures Digit(frac[1..][k]) { assert Digit(s[d + 1 + k]); }
    }
  }

  lemma ExponentSound(s: seq<bv8>, f: nat)
    requires f <= |s| && ExponentEnd(s, f) == Some(|s|)
    ensures Exponent(s[f..])
  {
    var exp := s[f..];
    if exp != [] {
      var g := SignEnd(s, f);
      DigitsEndRun(s, g);
      var body, k := exp[1..], g - f - 1;
      forall x | 0 <= x < |body[k..]| ensures Digit(body[k..][x]) { assert Digit(s[g + x]); }
      assert ExponentAt(body, k);
    }
  }

  lemma NumberScans(s: seq<bv8>)
    requires Number(s)
    ensures Scans(s)
  {
    hide Fraction, Exponent, DigitsEnd, FractionEnd, ExponentEnd, MinusEnd;
    var minus, whole, frac, exp :| NumberParts(minus, whole, frac, exp) && s == minus + whole + frac + exp;
    var m, d, f := |minus|, |minus| + |whole|, |minus| + |whole| + |frac|;
    PartsAt(s, minus, whole, frac, exp);
    DigitsEndIs(s, m, d);
    ExponentComplete(s, f, exp);
    FractionComplete(s, d, frac);
    ExponentComplete(s, f, exp);
  }

  /** Where the parts of a number stand in it. */
  lemma PartsAt(s: seq<bv8>, minus: seq<bv8>, whole: seq<bv8>, frac: seq<bv8>, exp: seq<bv8>)
    requires NumberParts(minus, whole, frac, exp) && s == minus + whole + frac + exp
    ensures var m, d, f := |minus|, |minus| + |whole|, |minus| + |whole| + |frac|;
      && MinusEnd(s) == m && s[m] == whole[0]
      && (forall x :: m <= x < d ==> Digit(s[x])) && (d < |s| ==> !Digit(s[d]))
      && s[d..f] == frac && s[f..] == exp
      && (d < |s| && frac == [] ==> s[d] != 0x2E)
  {
    hide Exponent;
    var m, d, f := |minus|, |minus| + |whole|, |minus| + |whole| + |frac|;
    forall x | m <= x < d ensures Digit(s[x]) { assert s[x] == whole[x - m]; }
    ExponentFirst(exp);
    if d < |s| { if frac != [] { assert s[d] == frac[0]; } else { assert s[d] == exp[0]; } }
    if minus == [] { assert s[0] == whole[0]; }
  }

  lemma ExponentFirst(exp: seq<bv8>)
    requires Exponent(exp)
    ensures exp != [] ==> exp[0] == 0x65 || exp[0] == 0x45
  {}

  lemma FractionComplete(s: seq<bv8>, d: nat, frac: seq<bv8>)
    requires d + |frac| <= |s| && s[d..d + |frac|] == frac && Fraction(frac)
    requires d < |s| && frac == [] ==> s[d] != 0x2E
    requires d + |frac| < |s| ==> !Digit(s[d + |frac|])
    ensures FractionEnd(s, d) == Some(d + |frac|)
  {
    if frac != [] {
      assert s[d] == frac[0];
      forall x | d + 1 <= x < d + |frac| ensures Digit(s[x]) { assert s[x] == frac[1..][x - d - 1]; }
      DigitsEndIs(s, d + 1, d + |frac|);
    }
  }

  lemma ExponentComplete(s: seq<bv8>, f: nat, exp: seq<bv8>)
    requires f <= |s| && s[f..] == exp && Exponent(exp)
    ensures ExponentEnd(s, f) == Some(|s|)
    ensures f < |s| ==> !Digit(s[f])
  {
    if exp != [] {
      assert s[f] == exp[0];
      var k: nat :| k <= |exp| - 1 && ExponentAt(exp[1..], k);
      var body, g := exp[1..], f + 1 + k;
      forall x | g <= x < |s| ensures Digit(s[x]) { assert s[x] == body[k..][x - g]; }
      assert s[f + 1] == body[0];
      if k == 0 {
        assert s[f + 1] == body[0..][0];
      } else {
        assert body[..k][0] == s[f + 1];
      }
      DigitsEndIs(s, g, |s|);
    }
  }

  /** tape_num_ok, which reads the span [i, e) of the buffer. */
  method NumOk(p: seq<bv8>, i: nat, e: nat) returns (ok: bool)
    requires i <= e <= |p|
    ensures ok <==> Number(p[i..e])
  {
    hide Number, Scans;
    var s := p[i..e];
    if Scans(s) { ScansIsNumber(s); }
    if Number(s) { NumberScans(s); }
    ok := ScanText(s);
  }

  method ScanText(s: seq<bv8>) returns (ok: bool)
    ensures ok <==> Scans(s)
  {
    hide DigitsEnd;
    var k := 0;
    if k < |s| && s[k] == 0x2D {
      k := k + 1;
    }
    var intStart := k;
    k := SkipDigits(s, k);
    if k == intStart {
      return false;
    }
    if k - intStart > 1 && s[intStart] == 0x30 {
      return false;
    }
    if k < |s| && s[k] == 0x2E {
      k := k + 1;
      var frac := k;
      k := SkipDigits(s, k);
      if k == frac {
        return false;
      }
    }
    if k < |s| && (s[k] == 0x65 || s[k] == 0x45) {
      k := k + 1;
      if k < |s| && (s[k] == 0x2B || s[k] == 0x2D) {
        k := k + 1;
      }
      var exp := k;
      k := SkipDigits(s, k);
      if k == exp {
        return false;
      }
    }
    return k == |s|;
  }

  method SkipDigits(s: seq<bv8>, start: nat) returns (k: nat)
    requires start <= |s|
    ensures k == DigitsEnd(s, start)
  {
    k := start;
    while k < |s| && 0x30 <= s[k] <= 0x39
      invariant start <= k <= |s| && DigitsEnd(s, start) == DigitsEnd(s, k)
    {
      k := k + 1;
    }
  }

  // ---- the run ---------------------------------------------------------------------------

  predicate DigitRun(p: seq<bv8>, i: nat, j: nat)
    requires j <= |p|
  {
    forall x :: i <= x < j ==> Digit(p[x])
  }

  /** LNUM_RUN: digits only, eight a word; it stops at the first byte of a loaded word that is no digit. */
  method DigitWords(p: seq<bv8>, start: nat) returns (k: nat)
    requires start <= |p|
    ensures start <= k <= |p| && DigitRun(p, start, k)
    ensures k + 8 <= |p| ==> !Digit(p[k])
  {
    hide Swar.Load, Swar.NonDigitFlags, Words.Ctz;
    k := start;
    while k + 8 <= |p|
      invariant start <= k <= |p| && DigitRun(p, start, k)
    {
      var nd := Swar.NonDigitFlags(Swar.Load(p, k));
      if nd != 0 {
        Swar.FirstNonDigit(p, k);
        k := k + Words.Ctz(nd) / 8;
        return;
      }
      Swar.AllDigits(p, k);
      k := k + 8;
    }
  }

  lemma {:induction false} RunPasses(p: seq<bv8>, i: nat, j: nat)
    requires i <= j <= |p| && DigitRun(p, i, j)
    ensures RunEnd(p, i) == RunEnd(p, j)
    decreases j - i
  {
    if i < j { RunPasses(p, i + 1, j); }
  }

  /** The number arm at position i: the run, whether it is a number, and whether only digits follow its first byte. */
  method ScanNumber(p: seq<bv8>, i: nat) returns (ok: bool, k: nat, isInt: bool)
    requires i < |p| && (Digit(p[i]) || p[i] == 0x2D)
    ensures k == RunEnd(p, i + 1) && (ok <==> Number(p[i..k]))
    ensures ok ==> (isInt <==> IntegerShape(p[i..k]))
  {
    hide Number;
    var c := p[i];
    k := DigitWords(p, i + 1);
    var digitsOnly, sawDigit := true, c != 0x2D || k > i + 1;
    RunPasses(p, i + 1, k);
    while k < |p|
      invariant i + 1 <= k <= |p| && RunEnd(p, i + 1) == RunEnd(p, k)
      invariant digitsOnly <==> DigitRun(p, i + 1, k)
      invariant sawDigit <==> c != 0x2D || exists x :: i + 1 <= x < k && Digit(p[x])
    {
      var d := p[k];
      if 0x30 <= d <= 0x39 {
        k := k + 1;
        sawDigit := true;
      } else if d == 0x2D || d == 0x2B || d == 0x2E || d == 0x65 || d == 0x45 {
        digitsOnly := false;
        k := k + 1;
      } else {
        break;
      }
    }
    assert RunEnd(p, k) == k;
    ghost var s := p[i..k];
    assert s[0] == c && forall x :: 1 <= x < |s| ==> s[x] == p[i + x];
    Shape(p, i, k);
    if digitsOnly && sawDigit {
      var d0 := if c == 0x2D then i + 1 else i;
      ok := k - d0 == 1 || p[d0] != 0x30;
      IntegerRule(s);
    } else {
      ok := NumOk(p, i, k);
    }
    isInt := digitsOnly && sawDigit;
    if ok { HasDigit(s); }
  }

  lemma Shape(p: seq<bv8>, i: nat, k: nat)
    requires i < k <= |p|
    ensures IntegerShape(p[i..k]) <==> DigitRun(p, i + 1, k)
  {
    var s := p[i..k];
    if IntegerShape(s) {
      forall x | i + 1 <= x < k ensures Digit(p[x]) { assert Digit(s[x - i]); }
    }
  }

  /** Integer text with a digit is a number unless it has a leading zero. */
  lemma IntegerRule(s: seq<bv8>)
    requires s != [] && (Digit(s[0]) || s[0] == 0x2D) && IntegerShape(s) && (s[0] != 0x2D || |s| > 1)
    ensures var m := if s[0] == 0x2D then 1 else 0;
      Number(s) <==> |s| - m == 1 || s[m] != 0x30
  {
    hide Number;
    var m := if s[0] == 0x2D then 1 else 0;
    DigitsEndIs(s, m, |s|);
    if Scans(s) { ScansIsNumber(s); }
    if Number(s) { NumberScans(s); }
  }

  lemma HasDigit(s: seq<bv8>)
    requires Number(s)
    ensures s != [] && (s[0] == 0x2D ==> exists x :: 1 <= x < |s| && Digit(s[x]))
  {
    hide Number;
    NumberScans(s);
    DigitsEndRun(s, MinusEnd(s));
    assert Digit(s[MinusEnd(s)]);
  }

  /** The literal arm at position i. */
  method ScanLiteral(p: seq<bv8>, i: nat) returns (end: Option<nat>)
    requires i < |p| && WordAt(p[i]).Some?
    ensures end == LiteralEnd(p, i)
  {
    var c := p[i];
    var wl := if c == 0x66 then 5 else 4;
    if i + wl > |p| {
      return None;
    }
    var got4 := p[i..i + 4];
    if got4 != (if c == 0x74 then [0x74, 0x72, 0x75, 0x65] else if c == 0x6E then [0x6E, 0x75, 0x6C, 0x6C] else [0x66, 0x61, 0x6C, 0x73])
       || (c == 0x66 && p[i + 4] != 0x65) {
      WordDiffers(p, i);
      return None;
    }
    assert c == 0x66 ==> p[i..i + 5] == p[i..i + 4] + [p[i + 4]];
    if i + wl < |p| {
      var z := p[i + wl];
      if z != 0x20 && z != 0x09 && z != 0x0A && z != 0x0D && z != 0x2C && z != 0x5D && z != 0x7D && z != 0x3A {
        return None;
      }
    }
    return Some(i + wl);
  }

  lemma WordDiffers(p: seq<bv8>, i: nat)
    requires i + 4 <= |p| && WordAt(p[i]).Some? && (p[i] == 0x66 ==> i + 5 <= |p|)
    ensures p[i] == 0x66 && p[i..i + 5] == FALSE_TEXT ==> p[i..i + 4] == [0x66, 0x61, 0x6C, 0x73] && p[i + 4] == 0x65
  {
    if p[i] == 0x66 && p[i..i + 5] == FALSE_TEXT {
      assert p[i + 4] == p[i..i + 5][4];
      assert p[i..i + 4] == p[i..i + 5][..4];
    }
  }
}
