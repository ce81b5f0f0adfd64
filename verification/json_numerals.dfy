/** The numbers of section 6 of RFC 8259 as an automaton over bytes. */
module JsonNumerals {
  import opened Wrappers
  import opened JsonGrammar
  import opened JsonNumber

  /** What has been read: nothing, a minus, a zero, other digits, a point, its digits, an e, its sign, its digits; or no number. */
  datatype Mode = Start | Minus | Zero | Whole | Point | Decimals | Mark | MarkSign | Power | Off

  predicate IsNine(c: bv8) { c == 0x30 || c == 0x31 || c == 0x32 || c == 0x33 || c == 0x34 || c == 0x35 || c == 0x36 || c == 0x37 || c == 0x38 || c == 0x39 }

  function Next(m: Mode, c: bv8): Mode {
    match m
    case Start => if c == 0x2D then Minus else if c == 0x30 then Zero else if IsNine(c) then Whole else Off
    case Minus => if c == 0x30 then Zero else if IsNine(c) then Whole else Off
    case Zero => if c == 0x2E then Point else if c == 0x65 || c == 0x45 then Mark else Off
    case Whole => if IsNine(c) then Whole else if c == 0x2E then Point else if c == 0x65 || c == 0x45 then Mark else Off
    case Point => if IsNine(c) then Decimals else Off
    case Decimals => if IsNine(c) then Decimals else if c == 0x65 || c == 0x45 then Mark else Off
    case Mark => if c == 0x2B || c == 0x2D then MarkSign else if IsNine(c) then Power else Off
    case MarkSign => if IsNine(c) then Power else Off
    case Power => if IsNine(c) then Power else Off
    case Off => Off
  }

  /** The mode behind the bytes from position k on. */
  function Read(m: Mode, s: seq<bv8>, k: nat): Mode
    requires k <= |s|
    decreases |s| - k
  {
    if k == |s| then m else Read(Next(m, s[k]), s, k + 1)
  }

  predicate Complete(m: Mode) { m == Zero || m == Whole || m == Decimals || m == Power }

  lemma NineIsDigit(c: bv8)
    ensures IsNine(c) <==> Digit(c)
  {}

  lemma {:induction false} OffStays(s: seq<bv8>, k: nat)
    requires k <= |s|
    ensures Read(Off, s, k) == Off
    decreases |s| - k
  {
    if k < |s| { OffStays(s, k + 1); }
  }

  /** The digits of one part are read in its mode. */
  lemma {:induction false} DigitsRead(m: Mode, s: seq<bv8>, k: nat)
    requires k <= |s| && (m == Whole || m == Decimals || m == Power)
    ensures Read(m, s, k) == Read(m, s, DigitsEnd(s, k))
    decreases |s| - k
  {
    if k < |s| {
      NineIsDigit(s[k]);
      hide IsNine;
      if Digit(s[k]) { DigitsRead(m, s, k + 1); }
    }
  }

  /** Digits from k on, from a mode that waits for some. */
  lemma SomeDigits(m: Mode, to: Mode, s: seq<bv8>, k: nat)
    requires k <= |s| && (to == Decimals || to == Power) && forall c :: Next(m, c) == if IsNine(c) then to else Off
    requires !Complete(m)
    ensures if DigitsEnd(s, k) == k then !Complete(Read(m, s, k)) else Read(m, s, k) == Read(to, s, DigitsEnd(s, k))
  {
    DigitsEndRun(s, k);
    if k < |s| {
      NineIsDigit(s[k]);
      hide IsNine;
      if Digit(s[k]) {
        DigitsRead(to, s, k + 1);
      } else {
        OffStays(s, k + 1);
      }
    }
  }

  lemma WaitingModes()
    ensures forall c :: Next(Point, c) == if IsNine(c) then Decimals else Off
    ensures forall c :: Next(MarkSign, c) == if IsNine(c) then Power else Off
  {}

  /** From a point on: its digits, and perhaps an exponent. */
  lemma PowerRead(s: seq<bv8>, f: nat)
    requires f < |s| && (s[f] == 0x65 || s[f] == 0x45)
    ensures Complete(Read(Mark, s, f + 1)) <==> ExponentEnd(s, f) == Some(|s|)
  {
    var g := SignEnd(s, f);
    DigitsEndRun(s, g);
    WaitingModes();
    if f + 1 < |s| { NineIsDigit(s[f + 1]); }
    if g == f + 2 {
      assert Read(Mark, s, f + 1) == Read(MarkSign, s, g);
      SomeDigits(MarkSign, Power, s, g);
    } else if f + 1 < |s| && Digit(s[f + 1]) {
      assert Read(Mark, s, f + 1) == Read(Power, s, f + 2);
      DigitsRead(Power, s, f + 2);
    } else if f + 1 < |s| {
      OffStays(s, f + 2);
    }
    PowerEnds(s, DigitsEnd(s, g));
  }

  /** Behind the digits of an exponent only the end may come. */
  lemma PowerEnds(s: seq<bv8>, e: nat)
    requires e <= |s| && (e < |s| ==> !Digit(s[e]))
    ensures Complete(Read(Power, s, e)) <==> e == |s|
  {
    if e < |s| {
      NineIsDigit(s[e]);
      OffStays(s, e + 1);
    }
  }

  /** Behind the whole digits or the decimals. */
  lemma TailRead(m: Mode, s: seq<bv8>, f: nat)
    requires f <= |s| && (f < |s| ==> !Digit(s[f]) && s[f] != 0x2E) && (m == Zero || m == Whole || m == Decimals)
    ensures Complete(Read(m, s, f)) <==> ExponentEnd(s, f) == Some(|s|)
  {
    if f < |s| {
      NineIsDigit(s[f]);
      if s[f] == 0x65 || s[f] == 0x45 { PowerRead(s, f); } else { OffStays(s, f + 1); }
    }
  }

  lemma FractionRead(m: Mode, s: seq<bv8>, d: nat)
    requires d <= |s| && (d < |s| ==> !Digit(s[d])) && (m == Zero || m == Whole)
    ensures Complete(Read(m, s, d)) <==> FractionEnd(s, d).Some? && ExponentEnd(s, FractionEnd(s, d).value) == Some(|s|)
  {
    if d < |s| && s[d] == 0x2E {
      var f := DigitsEnd(s, d + 1);
      DigitsEndRun(s, d + 1);
      WaitingModes();
      SomeDigits(Point, Decimals, s, d + 1);
      if f > d + 1 { DecimalsRead(s, f); }
    } else {
      TailRead(m, s, d);
    }
  }

  /** Behind decimals a point is no number's. */
  lemma DecimalsRead(s: seq<bv8>, f: nat)
    requires f <= |s| && (f < |s| ==> !Digit(s[f]))
    ensures Complete(Read(Decimals, s, f)) <==> ExponentEnd(s, f) == Some(|s|)
  {
    if f < |s| && s[f] == 0x2E {
      OffStays(s, f + 1);
    } else {
      TailRead(Decimals, s, f);
    }
  }

  lemma WholeRead(m: Mode, s: seq<bv8>, k: nat)
    requires k <= |s| && (m == Minus || (m == Start && (k < |s| ==> s[k] != 0x2D)))
    ensures var d := DigitsEnd(s, k);
      Complete(Read(m, s, k)) <==>
        d > k && (d - k == 1 || s[k] != 0x30) && FractionEnd(s, d).Some? && ExponentEnd(s, FractionEnd(s, d).value) == Some(|s|)
  {
    var d := DigitsEnd(s, k);
    DigitsEndRun(s, k);
    if k < |s| {
      NineIsDigit(s[k]);
      if s[k] == 0x30 {
        if d == k + 1 { FractionRead(Zero, s, d); } else { ZeroAlone(s, k); }
      } else if Digit(s[k]) {
        DigitsRead(Whole, s, k + 1);
        FractionRead(Whole, s, d);
      } else {
        OffStays(s, k + 1);
      }
    }
  }

  /** No digit behind a leading zero. */
  lemma ZeroAlone(s: seq<bv8>, k: nat)
    requires k + 1 < |s| && Digit(s[k + 1])
    ensures Read(Zero, s, k + 1) == Off
  {
    NineIsDigit(s[k + 1]);
    OffStays(s, k + 2);
  }

  /** The numbers are exactly what the automaton reads to a complete mode. */
  lemma NumberExactly(s: seq<bv8>)
    ensures Number(s) <==> Complete(Read(Start, s, 0))
  {
    hide Number, Complete;
    if Number(s) { NumberScans(s); }
    if Scans(s) { ScansIsNumber(s); }
    if s != [] && s[0] == 0x2D { WholeRead(Minus, s, 1); } else { WholeRead(Start, s, 0); }
  }
}
