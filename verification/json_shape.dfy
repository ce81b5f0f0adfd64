/** yep_json_number_shape: the number a text starts with, in front of a delimiter, against section 6 of RFC 8259. */
module JsonShape {
  import opened Wrappers
  import opened JsonGrammar
  import opened JsonLexer
  import opened JsonNumber

  /** The end of the integer digits: a leading zero stands alone. */
  function WholeEnd(s: seq<bv8>, m: nat): (d: nat)
    requires m < |s|
    ensures m <= d <= |s|
  {
    if s[m] == 0x30 then m + 1 else DigitsEnd(s, m)
  }

  /** The end of the number text s starts with, and whether it is a float's; a delimiter or the end must follow. */
  function Shape(s: seq<bv8>): (r: Option<(nat, bool)>)
    ensures r.Some? ==> 0 < r.value.0 <= |s|
  {
    var m := MinusEnd(s);
    if m >= |s| || !Digit(s[m]) then None
    else
      var d := WholeEnd(s, m);
      match FractionEnd(s, d)
      case None => None
      case Some(f) =>
        match ExponentEnd(s, f)
        case None => None
        case Some(h) => if h < |s| && !Delimiter(s[h]) then None else Some((h, d < h))
  }

  lemma {:induction false} DigitsExtend(t: seq<bv8>, rest: seq<bv8>, k: nat)
    requires k <= |t| && (rest != [] ==> !Digit(rest[0]))
    ensures DigitsEnd(t + rest, k) == DigitsEnd(t, k)
  {
    DigitsEndRun(t, k);
    var e := DigitsEnd(t, k);
    forall x | k <= x < e ensures Digit((t + rest)[x]) { assert (t + rest)[x] == t[x]; }
    DigitsEndIs(t + rest, k, e);
  }

  lemma DelimiterIsNone(c: bv8)
    requires Delimiter(c)
    ensures !Digit(c) && c != 0x2E && c != 0x65 && c != 0x45 && c != 0x2B && c != 0x2D && !NumberByte(c)
  {}

  /** Number text in front of a delimiter has its own shape. */
  lemma ShapeOfNumber(t: seq<bv8>, rest: seq<bv8>)
    requires Number(t) && (rest != [] ==> Delimiter(rest[0]))
    ensures Shape(t + rest) == Some((|t|, !IntegerShape(t)))
  {
    hide Number, Delimiter, DigitsEnd, IntegerShape;
    if rest != [] { DelimiterIsNone(rest[0]); }
    NumberScans(t);
    var s, m := t + rest, MinusEnd(t);
    var d := DigitsEnd(t, m);
    DigitsExtend(t, rest, m);
    WholeAlone(t);
    assert MinusEnd(s) == m && s[m] == t[m];
    LeadingZero(s, m, d);
    FractionExtends(t, rest, d);
    var f := FractionEnd(t, d).value;
    ExponentExtends(t, rest, f);
    IntegerDigits(t);
  }

  lemma WholeAlone(t: seq<bv8>)
    requires Scans(t)
    ensures var m := MinusEnd(t); m < |t| && Digit(t[m]) && m < DigitsEnd(t, m)
  {
    DigitsEndRun(t, MinusEnd(t));
  }

  lemma LeadingZero(s: seq<bv8>, m: nat, d: nat)
    requires m < d <= |s| && d == DigitsEnd(s, m) && (d - m == 1 || s[m] != 0x30)
    ensures WholeEnd(s, m) == d
  {
  }

  lemma FractionExtends(t: seq<bv8>, rest: seq<bv8>, d: nat)
    requires d <= |t| && FractionEnd(t, d).Some? && (rest != [] ==> !Digit(rest[0]) && rest[0] != 0x2E)
    ensures FractionEnd(t + rest, d) == FractionEnd(t, d)
  {
    hide DigitsEnd;
    if d < |t| {
      assert (t + rest)[d] == t[d];
      if t[d] == 0x2E { DigitsExtend(t, rest, d + 1); }
    } else if rest != [] {
      assert (t + rest)[d] == rest[0];
    }
  }

  lemma ExponentExtends(t: seq<bv8>, rest: seq<bv8>, f: nat)
    requires f <= |t| && ExponentEnd(t, f) == Some(|t|)
    requires rest != [] ==> !Digit(rest[0]) && rest[0] != 0x65 && rest[0] != 0x45 && rest[0] != 0x2B && rest[0] != 0x2D
    ensures ExponentEnd(t + rest, f) == Some(|t|)
  {
    hide DigitsEnd;
    if f < |t| {
      assert (t + rest)[f] == t[f];
      if f + 1 < |t| { assert (t + rest)[f + 1] == t[f + 1]; }
      assert SignEnd(t + rest, f) == SignEnd(t, f);
      DigitsExtend(t, rest, SignEnd(t, f));
    } else if rest != [] {
      assert (t + rest)[f] == rest[0];
    }
  }

  /** Only digits behind the first byte: no fraction and no exponent. */
  lemma IntegerDigits(t: seq<bv8>)
    requires Scans(t)
    ensures IntegerShape(t) <==> DigitsEnd(t, MinusEnd(t)) == |t|
  {
    var m := MinusEnd(t);
    var d := DigitsEnd(t, m);
    DigitsEndRun(t, m);
    if d < |t| { assert !Digit(t[d]) && d >= 1; }
  }

  /** The fraction at d, and the exponent at f: where they end. */
  method FractionAt(s: seq<bv8>, d: nat) returns (f: Option<nat>)
    requires d <= |s|
    ensures f == FractionEnd(s, d)
  {
    hide DigitsEnd;
    if d < |s| && s[d] == 0x2E {
      var e := SkipDigits(s, d + 1);
      return if e == d + 1 then None else Some(e);
    }
    f := Some(d);
  }

  method ExponentFrom(s: seq<bv8>, f: nat) returns (h: Option<nat>)
    requires f <= |s|
    ensures h == ExponentEnd(s, f)
  {
    hide DigitsEnd;
    if f < |s| && (s[f] == 0x65 || s[f] == 0x45) {
      var g := f + 1;
      if g < |s| && (s[g] == 0x2D || s[g] == 0x2B) {
        g := g + 1;
      }
      var e := SkipDigits(s, g);
      return if e == g then None else Some(e);
    }
    h := Some(f);
  }

  method WholeAt(s: seq<bv8>) returns (d: Option<nat>)
    ensures d == if MinusEnd(s) < |s| && Digit(s[MinusEnd(s)]) then Some(WholeEnd(s, MinusEnd(s))) else None
  {
    hide DigitsEnd;
    var e := 0;
    if e < |s| && s[e] == 0x2D {
      e := e + 1;
    }
    if e >= |s| || s[e] < 0x30 || s[e] > 0x39 {
      return None;
    }
    if s[e] == 0x30 {
      return Some(e + 1);
    }
    e := SkipDigits(s, e);
    d := Some(e);
  }

  /** yep_json_number_shape at position i: a float has a fraction or an exponent. */
  method NumberShape(p: seq<bv8>, i: nat) returns (shape: Option<(nat, bool)>)
    requires i <= |p|
    ensures shape == Shape(p[i..])
  {
    hide DigitsEnd, WholeEnd, FractionEnd, ExponentEnd;
    var s := p[i..];
    var d := WholeAt(s);
    if d == None {
      return None;
    }
    var f := FractionAt(s, d.value);
    if f == None {
      return None;
    }
    var h := ExponentFrom(s, f.value);
    if h == None {
      return None;
    }
    var e := h.value;
    if e < |s| {
      var c := s[e];
      if c != 0x20 && c != 0x09 && c != 0x0A && c != 0x0D && c != 0x2C && c != 0x5D && c != 0x7D && c != 0x3A {
        return None;
      }
    }
    shape := Some((e, d.value < e));
  }

  // ---- the other way: a shape is a number ----------------------------------------------------

  lemma {:induction false} DigitsCut(s: seq<bv8>, k: nat, n: nat)
    requires k <= |s| && DigitsEnd(s, k) <= n <= |s|
    ensures DigitsEnd(s[..n], k) == DigitsEnd(s, k)
  {
    DigitsEndRun(s, k);
    var e := DigitsEnd(s, k);
    forall x | k <= x < e ensures Digit(s[..n][x]) { assert s[..n][x] == s[x]; }
    DigitsEndIs(s[..n], k, e);
  }

  lemma FractionCut(s: seq<bv8>, d: nat, n: nat)
    requires d <= |s| && FractionEnd(s, d).Some? && FractionEnd(s, d).value <= n <= |s|
    ensures FractionEnd(s[..n], d) == FractionEnd(s, d)
  {
    hide DigitsEnd;
    if d < |s| && s[d] == 0x2E { DigitsCut(s, d + 1, n); }
  }

  lemma ExponentCut(s: seq<bv8>, f: nat)
    requires f <= |s| && ExponentEnd(s, f).Some?
    ensures ExponentEnd(s[..ExponentEnd(s, f).value], f) == ExponentEnd(s, f)
  {
    hide DigitsEnd;
    var n := ExponentEnd(s, f).value;
    if n > f { DigitsCut(s, SignEnd(s, f), n); }
  }

  /** Where the digits in front of a fraction or an exponent end, a leading zero included. */
  lemma WholeCut(s: seq<bv8>, m: nat, n: nat)
    requires m < |s| && Digit(s[m]) && WholeEnd(s, m) <= n <= |s|
    requires WholeEnd(s, m) < n ==> !Digit(s[WholeEnd(s, m)])
    ensures var d := WholeEnd(s, m); m < d && DigitsEnd(s[..n], m) == d && (d - m == 1 || s[m] != 0x30)
  {
    DigitsEndRun(s, m);
    DigitsEndIs(s[..n], m, WholeEnd(s, m));
  }

  /** Behind the digits only a fraction or an exponent makes the shape longer. */
  lemma BehindWhole(s: seq<bv8>, d: nat)
    requires d <= |s| && FractionEnd(s, d).Some? && ExponentEnd(s, FractionEnd(s, d).value).Some?
    ensures d < ExponentEnd(s, FractionEnd(s, d).value).value ==> !Digit(s[d])
  {}

  /** A shape is the text of a number, and its kind the number's. */
  lemma ShapeIsNumber(s: seq<bv8>)
    requires Shape(s).Some?
    ensures var (n, isFloat) := Shape(s).value;
      0 < n <= |s| && Number(s[..n]) && isFloat == !IntegerShape(s[..n]) && (n < |s| ==> Delimiter(s[n]))
  {
    hide DigitsEnd, FractionEnd, ExponentEnd, WholeEnd, Number, IntegerShape, Delimiter;
    var m := MinusEnd(s);
    var d := WholeEnd(s, m);
    var f := FractionEnd(s, d).value;
    var n := ExponentEnd(s, f).value;
    BehindWhole(s, d);
    WholeCut(s, m, n);
    FractionCut(s, d, n);
    ExponentCut(s, f);
    assert MinusEnd(s[..n]) == m;
    ScansIsNumber(s[..n]);
    IntegerDigits(s[..n]);
  }
}
