/** The JSON structural indexer: 64 bytes at a time in words, against a scanner that reads one byte at a time. */
module Stage1 {
  import opened Words

  const FLAG_C0_IN_STRING: bv32 := 1
  const FLAG_HAS_ESCAPE: bv32 := 2

  predicate IsQuote(c: bv8) { c == 0x22 }

  predicate IsBackslash(c: bv8) { c == 0x5C }

  predicate IsOperator(c: bv8) {
    c == 0x7B || c == 0x7D || c == 0x5B || c == 0x5D || c == 0x2C || c == 0x3A
  }

  predicate IsControl(c: bv8) { c < 0x20 }

  // ---- the reference: one byte at a time -------------------------------

  /** What the scanner knows before a byte: inside a string, and whether the byte is escaped. */
  datatype Scan = Scan(inString: bool, escaped: bool)

  function Step(st: Scan, c: bv8): Scan {
    Scan(st.inString != (IsQuote(c) && !st.escaped), IsBackslash(c) && !st.escaped)
  }

  function StateAt(p: seq<bv8>, i: nat): Scan
    requires i <= |p|
  {
    if i == 0 then Scan(false, false) else Step(StateAt(p, i - 1), p[i - 1])
  }

  /** An operator outside strings, or the unescaped quote that opens a string. */
  predicate IsToken(p: seq<bv8>, i: nat)
    requires i < |p|
  {
    var st := StateAt(p, i);
    !st.inString && (IsOperator(p[i]) || (IsQuote(p[i]) && !st.escaped))
  }

  function TokensBelow(p: seq<bv8>, i: nat): seq<nat>
    requires i <= |p|
  {
    if i == 0 then []
    else TokensBelow(p, i - 1) + if IsToken(p, i - 1) then [i - 1] else []
  }

  predicate ControlInString(p: seq<bv8>, lo: nat, hi: nat)
    requires lo <= hi <= |p|
  {
    exists i :: lo <= i < hi && IsControl(p[i]) && StateAt(p, i).inString
  }

  predicate HasBackslash(p: seq<bv8>, lo: nat, hi: nat)
    requires lo <= hi <= |p|
  {
    exists i :: lo <= i < hi && IsBackslash(p[i])
  }

  /** How many backslashes stand immediately before position i. */
  function RunBefore(p: seq<bv8>, i: nat): nat
    requires i <= |p|
  {
    if i > 0 && IsBackslash(p[i - 1]) then RunBefore(p, i - 1) + 1 else 0
  }

  /** A byte is escaped exactly when an odd run of backslashes stands before it. */
  lemma {:induction false} EscapedIsOddRun(p: seq<bv8>, i: nat)
    requires i <= |p|
    ensures StateAt(p, i).escaped <==> RunBefore(p, i) % 2 == 1
  {
    if i > 0 { EscapedIsOddRun(p, i - 1); }
  }

  /** The token list is strictly increasing and holds exactly the token positions. */
  lemma {:induction false} TokenListExact(p: seq<bv8>, n: nat)
    requires n <= |p|
    ensures forall i: nat :: i in TokensBelow(p, n) <==> i < n && IsToken(p, i)
    ensures forall a, b :: 0 <= a < b < |TokensBelow(p, n)| ==> TokensBelow(p, n)[a] < TokensBelow(p, n)[b]
  {
    if n > 0 {
      TokenListExact(p, n - 1);
      var before := TokensBelow(p, n - 1);
      forall a | 0 <= a < |before| ensures before[a] < n - 1 { assert before[a] in before; }
    }
  }

  // ---- the same in terms of the bytes ------------------------------------------------

  /** Exactly k backslashes stand in front of place i. */
  predicate SlashRun(p: seq<bv8>, i: nat, k: nat)
    requires i <= |p|
  {
    k <= i && (forall j :: i - k <= j < i ==> p[j] == 0x5C) && (k < i ==> p[i - k - 1] != 0x5C)
  }

  predicate Slashed(p: seq<bv8>, i: nat)
    requires i <= |p|
  {
    exists k :: 0 <= k <= i && k % 2 == 1 && SlashRun(p, i, k)
  }

  /** How many quotes in front of place i have no odd run of backslashes in front of them. */
  function LiveQuotes(p: seq<bv8>, i: nat): nat
    requires i <= |p|
  {
    if i == 0 then 0 else LiveQuotes(p, i - 1) + if p[i - 1] == 0x22 && !Slashed(p, i - 1) then 1 else 0
  }

  /** A bracket, brace, comma or colon behind an even number of live quotes, or a live quote there. */
  predicate Structural(p: seq<bv8>, i: nat)
    requires i < |p|
  {
    LiveQuotes(p, i) % 2 == 0 && (p[i] in {0x7B, 0x7D, 0x5B, 0x5D, 0x2C, 0x3A} || (p[i] == 0x22 && !Slashed(p, i)))
  }

  /** The structural places, in order. */
  ghost predicate Places(p: seq<bv8>, s: seq<nat>) {
    && (forall a, b :: 0 <= a < b < |s| ==> s[a] < s[b])
    && (forall i: nat :: i in s <==> i < |p| && Structural(p, i))
  }

  lemma {:induction false} RunIs(p: seq<bv8>, i: nat)
    requires i <= |p|
    ensures SlashRun(p, i, RunBefore(p, i))
  {
    if i > 0 && p[i - 1] == 0x5C { RunIs(p, i - 1); }
  }

  lemma RunUnique(p: seq<bv8>, i: nat, k: nat, l: nat)
    requires i <= |p| && SlashRun(p, i, k) && SlashRun(p, i, l)
    ensures k == l
  {
    if k < l { RunMaximal(p, i, k, l); }
    if l < k { RunMaximal(p, i, l, k); }
  }

  lemma RunMaximal(p: seq<bv8>, i: nat, k: nat, l: nat)
    requires k < l <= i <= |p| && forall j :: i - l <= j < i ==> p[j] == 0x5C
    ensures !SlashRun(p, i, k)
  {
    assert p[i - k - 1] == 0x5C;
  }

  lemma SlashedExactly(p: seq<bv8>, i: nat)
    requires i <= |p|
    ensures Slashed(p, i) <==> StateAt(p, i).escaped
  {
    hide SlashRun, StateAt, RunBefore;
    EscapedIsOddRun(p, i);
    RunIs(p, i);
    var n := RunBefore(p, i);
    assert SlashRun(p, i, n) && n <= i by { RunShort(p, i); }
    if Slashed(p, i) {
      var k :| 0 <= k <= i && k % 2 == 1 && SlashRun(p, i, k);
      RunUnique(p, i, n, k);
    }
  }

  lemma RunShort(p: seq<bv8>, i: nat)
    requires i <= |p|
    ensures RunBefore(p, i) <= i
  {}

  lemma {:induction false} InsideExactly(p: seq<bv8>, i: nat)
    requires i <= |p|
    ensures StateAt(p, i).inString <==> LiveQuotes(p, i) % 2 == 1
  {
    if i > 0 {
      InsideExactly(p, i - 1);
      SlashedExactly(p, i - 1);
    }
  }

  lemma TokenExactly(p: seq<bv8>, i: nat)
    requires i < |p|
    ensures IsToken(p, i) <==> Structural(p, i)
  {
    hide StateAt, LiveQuotes, Slashed;
    InsideExactly(p, i);
    SlashedExactly(p, i);
  }

  lemma PlacesExactly(p: seq<bv8>)
    ensures Places(p, TokensBelow(p, |p|))
  {
    hide TokensBelow, IsToken, Structural;
    TokenListExact(p, |p|);
    forall i | 0 <= i < |p| ensures IsToken(p, i) <==> Structural(p, i) { TokenExactly(p, i); }
  }

  /** The flags of a whole text: 2 for a backslash, 1 for a control byte behind an odd number of live quotes. */
  lemma FlagsExactly(p: seq<bv8>)
    ensures FlagsOf(p, 0, |p|) == (if HasSlash(p) then 2 else 0) | (if HasControl(p) then 1 else 0)
  {
    hide StateAt, LiveQuotes;
    forall i | 0 <= i < |p| ensures StateAt(p, i).inString <==> LiveQuotes(p, i) % 2 == 1 { InsideExactly(p, i); }
    if ControlInString(p, 0, |p|) {
      var i :| 0 <= i < |p| && IsControl(p[i]) && StateAt(p, i).inString;
      assert p[i] < 0x20 && LiveQuotes(p, i) % 2 == 1;
    }
    if HasControl(p) {
      var i :| 0 <= i < |p| && p[i] < 0x20 && LiveQuotes(p, i) % 2 == 1;
      assert IsControl(p[i]) && StateAt(p, i).inString;
    }
    assert HasBackslash(p, 0, |p|) <==> HasSlash(p) by {
      if HasSlash(p) { var i :| 0 <= i < |p| && p[i] == 0x5C; assert IsBackslash(p[i]); }
    }
  }

  predicate HasSlash(p: seq<bv8>) { exists i :: 0 <= i < |p| && p[i] == 0x5C }

  predicate HasControl(p: seq<bv8>) { exists i :: 0 <= i < |p| && p[i] < 0x20 && LiveQuotes(p, i) % 2 == 1 }

  // ---- the word expressions ---------------------------------------------

  const ODD_BITS: bv64 := 0xAAAA_AAAA_AAAA_AAAA

  /** The subtract-with-borrow escape scan: terminals of odd runs, xored into the odd-bit pattern. */
  function BorrowScan(bs: bv64, carry: bv64): bv64 {
    var potential := bs & !carry;
    (((potential << 1) | ODD_BITS) - potential) ^ ODD_BITS
  }

  function Escaped(bs: bv64, carry: bv64): bv64 {
    BorrowScan(bs, carry) ^ (bs | carry)
  }

  /** The bytewise law of the escape word: escaped iff the byte below is a live backslash. */
  predicate EscapeLaw(esc: bv64, bs: bv64, carry: bv64) {
    esc == ((bs & !esc) << 1) | carry
  }

  /** The borrow trick obeys the bytewise law, in one subtraction for the whole word. */
  lemma BorrowObeysLaw(bs: bv64, carry: bv64)
    requires carry <= 1
    ensures EscapeLaw(Escaped(bs, carry), bs, carry)
    ensures (BorrowScan(bs, carry) & bs) >> 63 == (bs & !Escaped(bs, carry)) >> 63
  {}

  lemma EscapeLawAt(esc: bv64, bs: bv64, carry: bv64, s: bv8)
    requires carry <= 1 && EscapeLaw(esc, bs, carry) && s < 64
    ensures At(esc, 0) <==> carry == 1
    ensures s > 0 ==> (At(esc, s) <==> At(bs, s - 1) && !At(esc, s - 1))
  {
    hide At;
    UpshiftBit(esc, bs & !esc, carry, s);
    if s > 0 {
      AndNotBit(bs, esc, s - 1);
    }
  }

  /** `x ^= x << n`. */
  function XorShift(x: bv64, n: bv8): bv64
    requires n <= 64
  {
    x ^ (x << n)
  }

  function PrefixXor(w: bv64): bv64 {
    XorShift(XorShift(XorShift(XorShift(XorShift(XorShift(w, 1), 2), 4), 8), 16), 32)
  }

  /** Whether an odd number of w's bits lie in [lo, hi). */
  predicate Odd(w: bv64, lo: nat, hi: nat)
    requires lo <= hi <= 64
  {
    if lo == hi then false else Odd(w, lo, hi - 1) != Bit(w, hi - 1)
  }

  lemma {:induction false} OddSplit(w: bv64, lo: nat, mid: nat, hi: nat)
    requires lo <= mid <= hi <= 64
    ensures Odd(w, lo, hi) == (Odd(w, lo, mid) != Odd(w, mid, hi))
  {
    if mid < hi { OddSplit(w, lo, mid, hi - 1); }
  }

  /** Bit k of x is the parity of the n bits of w that end at k. */
  predicate Windowed(x: bv64, w: bv64, n: nat) {
    forall k :: 0 <= k < 64 ==> Bit(x, k) == Odd(w, if k < n then 0 else k + 1 - n, k + 1)
  }

  lemma StepAt1(x: bv64, y: bv64, s: bv8)
    requires s < 64 && y == x ^ (x << 1)
    ensures At(y, s) == (At(x, s) != (s >= 1 && At(x, s - 1)))
  {}

  lemma StepAt2(x: bv64, y: bv64, s: bv8)
    requires s < 64 && y == x ^ (x << 2)
    ensures At(y, s) == (At(x, s) != (s >= 2 && At(x, s - 2)))
  {}

  lemma StepAt4(x: bv64, y: bv64, s: bv8)
    requires s < 64 && y == x ^ (x << 4)
    ensures At(y, s) == (At(x, s) != (s >= 4 && At(x, s - 4)))
  {}

  lemma StepAt8(x: bv64, y: bv64, s: bv8)
    requires s < 64 && y == x ^ (x << 8)
    ensures At(y, s) == (At(x, s) != (s >= 8 && At(x, s - 8)))
  {}

  lemma StepAt16(x: bv64, y: bv64, s: bv8)
    requires s < 64 && y == x ^ (x << 16)
    ensures At(y, s) == (At(x, s) != (s >= 16 && At(x, s - 16)))
  {}

  lemma StepAt32(x: bv64, y: bv64, s: bv8)
    requires s < 64 && y == x ^ (x << 32)
    ensures At(y, s) == (At(x, s) != (s >= 32 && At(x, s - 32)))
  {}

  predicate DoublingShift(n: nat) {
    n == 1 || n == 2 || n == 4 || n == 8 || n == 16 || n == 32
  }

  /** One doubling step, bit by bit. */
  lemma StepBits(x: bv64, n: nat, s: bv8, k: nat)
    requires DoublingShift(n) && s == Pos(n) && s <= 64 && k < 64
    ensures Bit(XorShift(x, s), k) == (Bit(x, k) != (k >= n && Bit(x, k - n)))
  {
    hide At, XorShift, Pos;
    PosFits(k);
    PosOrder(n, k);
    PosMinus(k, n);
    PosLiterals();
    StepAt(x, s, Pos(k));
  }

  lemma StepAt(x: bv64, n: bv8, s: bv8)
    requires s < 64 && (n == 1 || n == 2 || n == 4 || n == 8 || n == 16 || n == 32)
    ensures At(XorShift(x, n), s) == (At(x, s) != (s >= n && At(x, s - n)))
  {
    hide At, XorShift;
    if n == 1 { StepBy1(x, s); }
    else if n == 2 { StepBy2(x, s); }
    else if n == 4 { StepBy4(x, s); }
    else if n == 8 { StepBy8(x, s); }
    else if n == 16 { StepBy16(x, s); }
    else { StepBy32(x, s); }
  }

  lemma StepBy1(x: bv64, s: bv8)
    requires s < 64
    ensures At(XorShift(x, 1), s) == (At(x, s) != (s >= 1 && At(x, s - 1)))
  {
    hide At;
    StepAt1(x, XorShift(x, 1), s);
  }

  lemma StepBy2(x: bv64, s: bv8)
    requires s < 64
    ensures At(XorShift(x, 2), s) == (At(x, s) != (s >= 2 && At(x, s - 2)))
  {
    hide At;
    StepAt2(x, XorShift(x, 2), s);
  }

  lemma StepBy4(x: bv64, s: bv8)
    requires s < 64
    ensures At(XorShift(x, 4), s) == (At(x, s) != (s >= 4 && At(x, s - 4)))
  {
    hide At;
    StepAt4(x, XorShift(x, 4), s);
  }

  lemma StepBy8(x: bv64, s: bv8)
    requires s < 64
    ensures At(XorShift(x, 8), s) == (At(x, s) != (s >= 8 && At(x, s - 8)))
  {
    hide At;
    StepAt8(x, XorShift(x, 8), s);
  }

  lemma StepBy16(x: bv64, s: bv8)
    requires s < 64
    ensures At(XorShift(x, 16), s) == (At(x, s) != (s >= 16 && At(x, s - 16)))
  {
    hide At;
    StepAt16(x, XorShift(x, 16), s);
  }

  lemma StepBy32(x: bv64, s: bv8)
    requires s < 64
    ensures At(XorShift(x, 32), s) == (At(x, s) != (s >= 32 && At(x, s - 32)))
  {
    hide At;
    StepAt32(x, XorShift(x, 32), s);
  }

  lemma PosLiterals()
    ensures Pos(1) == 1 && Pos(2) == 2 && Pos(4) == 4 && Pos(8) == 8 && Pos(16) == 16 && Pos(32) == 32
  {}

  lemma PosMinus(k: nat, n: nat)
    requires n <= k < 64 || k < n
    ensures k >= n ==> Pos(k) - Pos(n) == Pos(k - n) && Pos(k - n) < 64
  {
    if k >= n {
      PosSum(k - n, n);
      PosFits(k - n);
    }
  }

  lemma {:induction false} PosSum(j: nat, n: nat)
    ensures Pos(j + n) == Pos(j) + Pos(n)
  {
    if n > 0 { PosSum(j, n - 1); }
  }

  /** Xoring a word with itself shifted by the window width doubles the window. */
  lemma Widen(w: bv64, x: bv64, n: nat, s: bv8)
    requires DoublingShift(n) && s == Pos(n) && s <= 64 && Windowed(x, w, n)
    ensures Windowed(XorShift(x, s), w, 2 * n)
  {
    hide Bit, XorShift;
    var y := XorShift(x, s);
    forall k | 0 <= k < 64
      ensures Bit(y, k) == Odd(w, if k < 2 * n then 0 else k + 1 - 2 * n, k + 1)
    {
      StepBits(x, n, s, k);
      assert Bit(x, k) == Odd(w, if k < n then 0 else k + 1 - n, k + 1);
      if k >= n {
        var j := k - n;
        assert Bit(x, j) == Odd(w, if j < n then 0 else j + 1 - n, j + 1);
        OddSplit(w, if j < n then 0 else j + 1 - n, j + 1, k + 1);
      }
    }
  }

  /** Six doubling shifts make a running parity: bit k of the result counts bits 0..k. */
  lemma PrefixXorIsParity(w: bv64)
    ensures Windowed(PrefixXor(w), w, 64)
  {
    hide Bit, Windowed, XorShift;
    PosLiterals();
    FirstWindow(w);
    var a := XorShift(w, 1);
    var b := XorShift(a, 2);
    var c := XorShift(b, 4);
    var d := XorShift(c, 8);
    var e := XorShift(d, 16);
    Widen(w, w, 1, 1);
    Widen(w, a, 2, 2);
    Widen(w, b, 4, 4);
    Widen(w, c, 8, 8);
    Widen(w, d, 16, 16);
    Widen(w, e, 32, 32);
  }

  lemma FirstWindow(w: bv64)
    ensures Windowed(w, w, 1)
  {
    hide Bit;
    forall k | 0 <= k < 64 ensures Bit(w, k) == Odd(w, if k < 1 then 0 else k, k + 1) {
      assert Odd(w, k, k + 1) == (Odd(w, k, k) != Bit(w, k));
    }
  }

  /** The string word at bit k: the parity of the live quotes up to k, against the state carried in. */
  lemma InsideBit(live: bv64, prev: bv64, ps: bv64, inside: bv64, k: nat)
    requires prev == 0 || prev == ALL_ONES
    requires ps == PrefixXor(live) && inside == ps ^ prev && k < 64
    ensures Bit(inside, k) == (Odd(live, 0, k + 1) != (prev == ALL_ONES))
  {
    hide At, PrefixXor;
    PrefixXorIsParity(live);
    assert Bit(ps, k) == Odd(live, 0, k + 1);
    PosFits(k);
    Inverted(ps, prev, inside, Pos(k));
  }

  lemma Inverted(x: bv64, prev: bv64, y: bv64, s: bv8)
    requires prev == 0 || prev == ALL_ONES
    requires y == x ^ prev && s < 64
    ensures At(y, s) == (At(x, s) != (prev == ALL_ONES))
  {}

  /** Interiors and closing quotes are dropped; operators and opening quotes stay. */
  function TokenWord(op: bv64, live: bv64, inside: bv64, valid: bv64): bv64 {
    var tail := (inside ^ live) & valid;
    (op | (live & !tail)) & !tail & valid
  }

  lemma TokenAt(op: bv64, live: bv64, inside: bv64, valid: bv64, tokens: bv64, s: bv8)
    requires s < 64 && tokens == TokenWord(op, live, inside, valid)
    ensures At(tokens, s) <==>
            At(valid, s) && (At(op, s) || At(live, s)) && At(inside, s) == At(live, s)
  {}

  // ---- one block ----------------------------------------------------------

  /** Bit k of the mask says whether byte off + k is in the class; positions past the block are clear. */
  predicate MaskOf(m: bv64, p: seq<bv8>, off: nat, cn: nat, cls: bv8 -> bool)
    requires off + cn <= |p|
  {
    forall k :: 0 <= k < 64 ==> (Bit(m, k) <==> k < cn && cls(p[off + k]))
  }

  lemma {:induction false} BlockEscapes(p: seq<bv8>, off: nat, cn: nat, bs: bv64, esc: bv64, carry: bv64, k: nat)
    requires cn <= 64 && off + cn <= |p| && k < 64 && k <= cn
    requires MaskOf(bs, p, off, cn, IsBackslash)
    requires carry == (if StateAt(p, off).escaped then 1 else 0)
    requires EscapeLaw(esc, bs, carry)
    ensures Bit(esc, k) <==> StateAt(p, off + k).escaped
  {
    hide At, EscapeLaw;
    PosFits(k);
    EscapeLawAt(esc, bs, carry, Pos(k));
    if k > 0 {
      BlockEscapes(p, off, cn, bs, esc, carry, k - 1);
      assert Bit(bs, k - 1) <==> IsBackslash(p[off + (k - 1)]);
      PosPrevious(k);
    }
  }

  lemma PosPrevious(k: nat)
    requires 0 < k < 64
    ensures 0 < Pos(k) < 64 && Pos(k) - 1 == Pos(k - 1)
  {
    PosFits(k);
    PosOrder(0, k);
  }

  predicate LiveQuote(p: seq<bv8>, i: nat)
    requires i < |p|
  {
    IsQuote(p[i]) && !StateAt(p, i).escaped
  }

  predicate LiveWord(live: bv64, p: seq<bv8>, off: nat, cn: nat)
    requires off + cn <= |p|
  {
    forall k :: 0 <= k < 64 ==> (Bit(live, k) <==> k < cn && LiveQuote(p, off + k))
  }

  lemma BlockLive(p: seq<bv8>, off: nat, cn: nat, q: bv64, bs: bv64, esc: bv64, carry: bv64, live: bv64)
    requires cn <= 64 && off + cn <= |p|
    requires MaskOf(q, p, off, cn, IsQuote) && MaskOf(bs, p, off, cn, IsBackslash)
    requires carry == (if StateAt(p, off).escaped then 1 else 0)
    requires EscapeLaw(esc, bs, carry) && live == q & !esc
    ensures LiveWord(live, p, off, cn)
  {
    hide At, EscapeLaw, StateAt, IsQuote, IsBackslash;
    forall k | 0 <= k < 64
      ensures Bit(live, k) <==> k < cn && LiveQuote(p, off + k)
    {
      PosFits(k);
      AndNotBit(q, esc, Pos(k));
      assert Bit(q, k) <==> k < cn && IsQuote(p[off + k]);
      if k < cn { BlockEscapes(p, off, cn, bs, esc, carry, k); }
    }
  }

  function Least(a: nat, b: nat): nat { if a < b then a else b }

  /** Toggling at each live quote is counting them: the scanner's string state inside a block. */
  lemma {:induction false} OddQuotes(p: seq<bv8>, off: nat, cn: nat, live: bv64, k: nat)
    requires cn <= 64 && off + cn <= |p| && k <= 64
    requires LiveWord(live, p, off, cn)
    ensures StateAt(p, off + Least(k, cn)).inString == (StateAt(p, off).inString != Odd(live, 0, k))
  {
    hide Bit;
    if k > 0 {
      OddQuotes(p, off, cn, live, k - 1);
      assert Bit(live, k - 1) <==> k - 1 < cn && LiveQuote(p, off + (k - 1));
    }
  }

  lemma BlockInside(p: seq<bv8>, off: nat, cn: nat, live: bv64, prev: bv64, inside: bv64, k: nat)
    requires cn <= 64 && off + cn <= |p| && k < 64
    requires LiveWord(live, p, off, cn)
    requires prev == (if StateAt(p, off).inString then ALL_ONES else 0)
    requires inside == PrefixXor(live) ^ prev
    ensures Bit(inside, k) <==> StateAt(p, off + Least(k + 1, cn)).inString
  {
    hide Bit, PrefixXor;
    OddQuotes(p, off, cn, live, k + 1);
    InsideBit(live, prev, PrefixXor(live), inside, k);
  }

  lemma BlockToken(p: seq<bv8>, off: nat, cn: nat, op: bv64, live: bv64, prev: bv64, inside: bv64,
                   valid: bv64, tokens: bv64, k: nat)
    requires cn <= 64 && off + cn <= |p| && k < 64
    requires MaskOf(op, p, off, cn, IsOperator) && LiveWord(live, p, off, cn)
    requires prev == (if StateAt(p, off).inString then ALL_ONES else 0)
    requires inside == PrefixXor(live) ^ prev
    requires forall j :: 0 <= j < 64 ==> (Bit(valid, j) <==> j < cn)
    requires tokens == TokenWord(op, live, inside, valid)
    ensures Bit(tokens, k) <==> k < cn && IsToken(p, off + k)
  {
    hide At, TokenWord, PrefixXor;
    PosFits(k);
    TokenAt(op, live, inside, valid, tokens, Pos(k));
    assert Bit(valid, k) <==> k < cn;
    BlockInside(p, off, cn, live, prev, inside, k);
    if k < cn {
      assert Bit(op, k) <==> IsOperator(p[off + k]);
      assert Bit(live, k) <==> LiveQuote(p, off + k);
      assert StateAt(p, off + (k + 1)) == Step(StateAt(p, off + k), p[off + k]);
    }
  }

  // ---- the carries and the flags ------------------------------------------

  /** `(uint64_t)((int64_t)w >> 63)`: the top bit spread over the word. */
  function SignFill(w: bv64): bv64 {
    if w >> 63 == 1 then ALL_ONES else 0
  }

  lemma TopBit(w: bv64)
    ensures Bit(w, 63) <==> w >> 63 == 1
    ensures w >> 63 == 0 || w >> 63 == 1
  {
    PosValue(63);
    PosFits(63);
    assert Pos(63) == 63 by { SameOrder(Pos(63), 63); SameOrder(63, Pos(63)); }
    TopAt(w, Pos(63));
  }

  lemma TopAt(w: bv64, s: bv8)
    requires s == 63
    ensures At(w, s) <==> w >> 63 == 1
    ensures w >> 63 == 0 || w >> 63 == 1
  {}

  lemma CarryOut(p: seq<bv8>, off: nat, bs: bv64, carry: bv64)
    requires off + 64 <= |p| && MaskOf(bs, p, off, 64, IsBackslash)
    requires carry == (if StateAt(p, off).escaped then 1 else 0)
    ensures (BorrowScan(bs, carry) & bs) >> 63 == (if StateAt(p, off + 64).escaped then 1 else 0)
  {
    hide At, Bit, BorrowScan, Escaped, EscapeLaw;
    var esc := Escaped(bs, carry);
    BorrowObeysLaw(bs, carry);
    BlockEscapes(p, off, 64, bs, esc, carry, 63);
    assert Bit(bs, 63) <==> IsBackslash(p[off + 63]);
    TopBit(bs & !esc);
    BitAndNot(bs, esc, bs & !esc, 63);
  }

  lemma BitAndNot(x: bv64, y: bv64, z: bv64, k: nat)
    requires k < 64 && z == x & !y
    ensures Bit(z, k) <==> Bit(x, k) && !Bit(y, k)
  {
    hide At;
    PosFits(k);
    AndNotBit(x, y, Pos(k));
  }

  lemma SomeBit(w: bv64)
    ensures w != 0 <==> exists k :: 0 <= k < 64 && Bit(w, k)
  {
    hide At;
    if w != 0 {
      assert Bit(w, Ctz(w));
    } else {
      forall k | 0 <= k < 64 ensures !Bit(w, k) { PosFits(k); ZeroAt(Pos(k)); }
    }
  }

  lemma BackslashFlag(p: seq<bv8>, off: nat, cn: nat, bs: bv64)
    requires cn <= 64 && off + cn <= |p| && MaskOf(bs, p, off, cn, IsBackslash)
    ensures bs != 0 <==> HasBackslash(p, off, off + cn)
  {
    hide Bit, IsBackslash;
    SomeBit(bs);
    if bs != 0 {
      var k :| 0 <= k < 64 && Bit(bs, k);
      assert IsBackslash(p[off + k]);
    }
    if HasBackslash(p, off, off + cn) {
      var i :| off <= i < off + cn && IsBackslash(p[i]);
      assert p[off + (i - off)] == p[i];
      assert Bit(bs, i - off);
    }
  }

  lemma ControlFlag(p: seq<bv8>, off: nat, cn: nat, c0: bv64, live: bv64, prev: bv64, inside: bv64, valid: bv64)
    requires cn <= 64 && off + cn <= |p|
    requires MaskOf(c0, p, off, cn, IsControl) && LiveWord(live, p, off, cn)
    requires prev == (if StateAt(p, off).inString then ALL_ONES else 0)
    requires inside == PrefixXor(live) ^ prev
    requires forall j :: 0 <= j < 64 ==> (Bit(valid, j) <==> j < cn)
    ensures c0 & inside & valid != 0 <==> ControlInString(p, off, off + cn)
  {
    hide Bit, PrefixXor, StateAt;
    var w := c0 & inside & valid;
    forall k | 0 <= k < 64
      ensures Bit(w, k) <==> k < cn && IsControl(p[off + k]) && StateAt(p, off + k).inString
    {
      BitAnd3(c0, inside, valid, w, k);
      BlockInside(p, off, cn, live, prev, inside, k);
      assert Bit(c0, k) <==> k < cn && IsControl(p[off + k]);
      if k < cn && IsControl(p[off + k]) { ControlKeepsState(p, off + k); }
    }
    SomeBit(w);
    if w != 0 {
      var k :| 0 <= k < 64 && Bit(w, k);
      assert IsControl(p[off + k]);
    }
    if ControlInString(p, off, off + cn) {
      var i :| off <= i < off + cn && IsControl(p[i]) && StateAt(p, i).inString;
      assert p[off + (i - off)] == p[i];
      assert Bit(w, i - off);
    }
  }

  lemma ControlKeepsState(p: seq<bv8>, i: nat)
    requires i < |p| && IsControl(p[i])
    ensures StateAt(p, i + 1).inString == StateAt(p, i).inString
  {}

  lemma BitAnd3(x: bv64, y: bv64, z: bv64, w: bv64, k: nat)
    requires k < 64 && w == x & y & z
    ensures Bit(w, k) <==> Bit(x, k) && Bit(y, k) && Bit(z, k)
  {
    hide At;
    PosFits(k);
    AtAnd3(x, y, z, w, Pos(k));
  }

  lemma AtAnd3(x: bv64, y: bv64, z: bv64, w: bv64, s: bv8)
    requires s < 64 && w == x & y & z
    ensures At(w, s) <==> At(x, s) && At(y, s) && At(z, s)
  {}

  // ---- the resolver ---------------------------------------------------------

  /** What the classification of one block owes the resolver. */
  predicate Classified(p: seq<bv8>, off: nat, cn: nat, q: bv64, bs: bv64, op: bv64, c0: bv64, valid: bv64)
    requires off + cn <= |p|
  {
    && MaskOf(q, p, off, cn, IsQuote)
    && MaskOf(bs, p, off, cn, IsBackslash)
    && MaskOf(op, p, off, cn, IsOperator)
    && MaskOf(c0, p, off, cn, IsControl)
    && forall j :: 0 <= j < 64 ==> (Bit(valid, j) <==> j < cn)
  }

  predicate Carried(p: seq<bv8>, off: nat, prev: bv64, carry: bv64)
    requires off <= |p|
  {
    && prev == (if StateAt(p, off).inString then ALL_ONES else 0)
    && carry == (if StateAt(p, off).escaped then 1 else 0)
  }

  function FlagsOf(p: seq<bv8>, lo: nat, hi: nat): bv32
    requires lo <= hi <= |p|
  {
    (if HasBackslash(p, lo, hi) then FLAG_HAS_ESCAPE else 0)
    | (if ControlInString(p, lo, hi) then FLAG_C0_IN_STRING else 0)
  }

  /** yep_json_stage1_tokens: the token word of one block; the carries move to the next one. */
  method Tokens(q: bv64, bs: bv64, op: bv64, c0: bv64, valid: bv64, prev: bv64, carry: bv64, flags: bv32,
                ghost p: seq<bv8>, ghost off: nat, ghost cn: nat)
    returns (tokens: bv64, prev': bv64, carry': bv64, flags': bv32)
    requires cn <= 64 && off + cn <= |p|
    requires Classified(p, off, cn, q, bs, op, c0, valid)
    requires Carried(p, off, prev, carry)
    ensures forall k :: 0 <= k < 64 ==> (Bit(tokens, k) <==> k < cn && IsToken(p, off + k))
    ensures prev' == (if StateAt(p, off + cn).inString then ALL_ONES else 0)
    ensures cn == 64 ==> Carried(p, off + cn, prev', carry')
    ensures flags' == flags | FlagsOf(p, off, off + cn)
  {
    hide Bit, BorrowScan, Escaped, EscapeLaw, PrefixXor, TokenWord, SignFill, StateAt;
    var s := BorrowScan(bs, carry);
    var escaped := s ^ (bs | carry);
    carry' := (s & bs) >> 63;
    var live := q & !escaped;
    var ps := PrefixXor(live);
    var inside := ps ^ prev;
    prev' := SignFill(inside);
    flags' := flags;
    if bs != 0 {
      flags' := flags' | FLAG_HAS_ESCAPE;
    }
    if c0 & inside & valid != 0 {
      flags' := flags' | FLAG_C0_IN_STRING;
    }
    tokens := TokenWord(op, live, inside, valid);
    EscapedWord(bs, carry, s, escaped);
    BlockWords(p, off, cn, q, bs, op, c0, valid, prev, carry, escaped, live, inside, tokens);
  }

  lemma EscapedWord(bs: bv64, carry: bv64, s: bv64, escaped: bv64)
    requires carry <= 1 && s == BorrowScan(bs, carry) && escaped == s ^ (bs | carry)
    ensures EscapeLaw(escaped, bs, carry)
  {
    hide BorrowScan, EscapeLaw;
    BorrowObeysLaw(bs, carry);
    assert escaped == Escaped(bs, carry);
  }

  /** All a block's words say, in the scanner's terms. */
  lemma BlockWords(p: seq<bv8>, off: nat, cn: nat, q: bv64, bs: bv64, op: bv64, c0: bv64, valid: bv64,
                   prev: bv64, carry: bv64, escaped: bv64, live: bv64, inside: bv64, tokens: bv64)
    requires cn <= 64 && off + cn <= |p|
    requires Classified(p, off, cn, q, bs, op, c0, valid)
    requires Carried(p, off, prev, carry)
    requires EscapeLaw(escaped, bs, carry) && live == q & !escaped
    requires inside == PrefixXor(live) ^ prev && tokens == TokenWord(op, live, inside, valid)
    ensures forall k :: 0 <= k < 64 ==> (Bit(tokens, k) <==> k < cn && IsToken(p, off + k))
    ensures SignFill(inside) == (if StateAt(p, off + cn).inString then ALL_ONES else 0)
    ensures cn == 64 ==> (BorrowScan(bs, carry) & bs) >> 63 == (if StateAt(p, off + cn).escaped then 1 else 0)
    ensures bs != 0 <==> HasBackslash(p, off, off + cn)
    ensures c0 & inside & valid != 0 <==> ControlInString(p, off, off + cn)
  {
    hide Bit, BorrowScan, EscapeLaw, PrefixXor, TokenWord, StateAt;
    BlockLive(p, off, cn, q, bs, escaped, carry, live);
    forall k | 0 <= k < 64 ensures Bit(tokens, k) <==> k < cn && IsToken(p, off + k) {
      BlockToken(p, off, cn, op, live, prev, inside, valid, tokens, k);
    }
    BlockInside(p, off, cn, live, prev, inside, 63);
    TopBit(inside);
    if cn == 64 { CarryOut(p, off, bs, carry); }
    BackslashFlag(p, off, cn, bs);
    ControlFlag(p, off, cn, c0, live, prev, inside, valid);
  }

  // ---- the index ------------------------------------------------------------

  /** Positions as the index stores them: u32 offsets. */
  function Offsets(s: seq<nat>, off: nat): (r: seq<nat>)
    ensures |r| == |s|
  {
    seq(|s|, i requires 0 <= i < |s| => (off + s[i]) % 0x1_0000_0000)
  }

  lemma OffsetsJoin(a: seq<nat>, b: seq<nat>, off: nat)
    ensures Offsets(a + b, off) == Offsets(a, off) + Offsets(b, off)
  {}

  function Moved(s: seq<nat>, off: nat): (r: seq<nat>)
    ensures |r| == |s|
  {
    seq(|s|, i requires 0 <= i < |s| => off + s[i])
  }

  lemma OffsetsMoved(s: seq<nat>, off: nat)
    ensures Offsets(Moved(s, off), 0) == Offsets(s, off)
  {}

  lemma {:induction false} TokenCount(p: seq<bv8>, i: nat)
    requires i <= |p|
    ensures |TokensBelow(p, i)| <= i
  {
    if i > 0 { TokenCount(p, i - 1); }
  }

  /** A block adds its set token bits, moved to the block's offset. */
  lemma {:induction false} BlockTokenList(p: seq<bv8>, off: nat, cn: nat, tokens: bv64, k: nat)
    requires cn <= 64 && off + cn <= |p| && k <= 64
    requires forall j :: 0 <= j < 64 ==> (Bit(tokens, j) <==> j < cn && IsToken(p, off + j))
    ensures TokensBelow(p, off + Least(k, cn)) == TokensBelow(p, off) + Moved(BitsBelow(tokens, k), off)
  {
    hide Bit, IsToken;
    if k > 0 {
      BlockTokenList(p, off, cn, tokens, k - 1);
      assert Bit(tokens, k - 1) <==> k - 1 < cn && IsToken(p, off + (k - 1));
    }
  }

  /** The emission loop: each set bit's position, lowest first. */
  method Emit(tokens: bv64, off: nat, idx: array<nat>, n: nat) returns (n': nat)
    requires n + |BitsBelow(tokens, 64)| <= idx.Length
    modifies idx
    ensures n' == n + |BitsBelow(tokens, 64)|
    ensures idx[..n'] == old(idx[..n]) + Offsets(BitsBelow(tokens, 64), off)
    ensures forall i :: n' <= i < idx.Length ==> idx[i] == old(idx[i])
  {
    hide DropLowest, BitsBelow, Ctz;
    var rest := tokens;
    ghost var all := BitsBelow(tokens, 64);
    ghost var emitted: seq<nat> := [];
    n' := n;
    while rest != 0
      invariant emitted + BitsBelow(rest, 64) == all
      invariant n' == n + |emitted|
      invariant idx[..n'] == old(idx[..n]) + Offsets(emitted, off)
      invariant forall i :: n' <= i < idx.Length ==> idx[i] == old(idx[i])
      decreases |all| - |emitted|
    {
      PeelLowest(rest, DropLowest(rest));
      var k := Ctz(rest);
      OffsetsJoin(emitted, [k], off);
      idx[n'] := (off + k) % 0x1_0000_0000;
      n' := n' + 1;
      emitted := emitted + [k];
      rest := DropLowest(rest);
    }
    NoBits(64);
  }

  /** yep_json_stage1_resolve: the token word, then its positions appended in order. */
  method Resolve(q: bv64, bs: bv64, op: bv64, c0: bv64, valid: bv64, prev: bv64, carry: bv64,
                 off: nat, idx: array<nat>, n: nat, flags: bv32, ghost p: seq<bv8>, ghost cn: nat)
    returns (n': nat, prev': bv64, carry': bv64, flags': bv32)
    requires cn <= 64 && off + cn <= |p|
    requires Classified(p, off, cn, q, bs, op, c0, valid)
    requires Carried(p, off, prev, carry)
    requires idx.Length >= |p| + 2
    requires n <= idx.Length && idx[..n] == Offsets(TokensBelow(p, off), 0)
    modifies idx
    ensures n <= n' <= idx.Length && idx[..n'] == Offsets(TokensBelow(p, off + cn), 0)
    ensures forall i :: n' <= i < idx.Length ==> idx[i] == old(idx[i])
    ensures prev' == (if StateAt(p, off + cn).inString then ALL_ONES else 0)
    ensures cn == 64 ==> Carried(p, off + cn, prev', carry')
    ensures flags' == flags | FlagsOf(p, off, off + cn)
  {
    hide Bit, StateAt, IsToken, Classified, FlagsOf, BitsBelow;
    var tokens;
    tokens, prev', carry', flags' := Tokens(q, bs, op, c0, valid, prev, carry, flags, p, off, cn);
    ghost var all := BitsBelow(tokens, 64);
    BlockTokenList(p, off, cn, tokens, 64);
    TokenCount(p, off + cn);
    n' := Emit(tokens, off, idx, n);
    OffsetsMoved(all, off);
    OffsetsJoin(TokensBelow(p, off), Moved(all, off), 0);
  }

  lemma MaskNext(p: seq<bv8>, off: nat, k: nat, m: bv64, m': bv64, cls: bv8 -> bool)
    requires k < 64 && off + k < |p| && MaskOf(m, p, off, k, cls)
    requires m' == if cls(p[off + k]) then Or(m, OneHot(k)) else m
    ensures MaskOf(m', p, off, k + 1, cls)
  {
    hide Bit, OneHot, Or;
    forall j | 0 <= j < 64 ensures Bit(m', j) <==> j < k + 1 && cls(p[off + j]) {
      assert Bit(m, j) <==> j < k && cls(p[off + j]);
      if cls(p[off + k]) { OrOneHotBit(m, OneHot(k), m', k, j); }
    }
  }

  lemma EmptyMask(p: seq<bv8>, off: nat, cls: bv8 -> bool)
    requires off <= |p|
    ensures MaskOf(0, p, off, 0, cls)
  {
    hide At;
    forall j | 0 <= j < 64 ensures !Bit(0, j) { PosFits(j); ZeroAt(Pos(j)); }
  }

  /** The byte loop that classifies one block. */
  method Classify(p: seq<bv8>, off: nat, cn: nat) returns (q: bv64, bs: bv64, op: bv64, c0: bv64)
    requires cn <= 64 && off + cn <= |p|
    ensures MaskOf(q, p, off, cn, IsQuote) && MaskOf(bs, p, off, cn, IsBackslash)
    ensures MaskOf(op, p, off, cn, IsOperator) && MaskOf(c0, p, off, cn, IsControl)
  {
    hide MaskOf, Or, OneHot;
    q, bs, op, c0 := 0, 0, 0, 0;
    EmptyMask(p, off, IsQuote);
    EmptyMask(p, off, IsBackslash);
    EmptyMask(p, off, IsOperator);
    EmptyMask(p, off, IsControl);
    for k := 0 to cn
      invariant MaskOf(q, p, off, k, IsQuote) && MaskOf(bs, p, off, k, IsBackslash)
      invariant MaskOf(op, p, off, k, IsOperator) && MaskOf(c0, p, off, k, IsControl)
    {
      var c := p[off + k];
      var bit := OneHot(k);
      ghost var q0, bs0, op0, c00 := q, bs, op, c0;
      if IsQuote(c) {
        q := Or(q, bit);
      } else if IsBackslash(c) {
        bs := Or(bs, bit);
      } else if IsOperator(c) {
        op := Or(op, bit);
      }
      if IsControl(c) {
        c0 := Or(c0, bit);
      }
      MaskNext(p, off, k, q0, q, IsQuote);
      MaskNext(p, off, k, bs0, bs, IsBackslash);
      MaskNext(p, off, k, op0, op, IsOperator);
      MaskNext(p, off, k, c00, c0, IsControl);
    }
  }

  lemma ValidMask(cn: nat, valid: bv64)
    requires cn <= 64 && valid == if cn == 64 then ALL_ONES else OneHot(cn) - 1
    ensures forall j :: 0 <= j < 64 ==> (Bit(valid, j) <==> j < cn)
  {
    hide Bit, OneHot;
    forall j | 0 <= j < 64 ensures Bit(valid, j) <==> j < cn {
      if cn == 64 { AllOnesBit(j); } else { LowMaskBit(cn, j); }
    }
  }

  lemma FlagsJoin(p: seq<bv8>, mid: nat, hi: nat, flags: bv32)
    requires mid <= hi <= |p|
    ensures (flags | FlagsOf(p, 0, mid)) | FlagsOf(p, mid, hi) == flags | FlagsOf(p, 0, hi)
  {
    hide IsBackslash, IsControl, StateAt;
    assert HasBackslash(p, 0, hi) <==> HasBackslash(p, 0, mid) || HasBackslash(p, mid, hi);
    assert ControlInString(p, 0, hi) <==> ControlInString(p, 0, mid) || ControlInString(p, mid, hi);
  }

  /** The blocks of a text, one behind the other. */
  method Blocks(p: seq<bv8>, idx: array<nat>, flags: bv32)
    returns (ok: bool, nidx: nat, flags': bv32)
    requires idx.Length >= |p| + 2
    modifies idx
    ensures nidx <= idx.Length && idx[..nidx] == Offsets(TokensBelow(p, |p|), 0)
    ensures forall i :: nidx <= i < idx.Length ==> idx[i] == old(idx[i])
    ensures ok == !StateAt(p, |p|).inString
    ensures flags' == flags | FlagsOf(p, 0, |p|)
  {
    hide Bit, MaskOf, FlagsOf, Step, OneHot;
    var n: nat := 0;
    var prev: bv64, carry: bv64 := 0, 0;
    flags' := flags;
    var off := 0;
    assert FlagsOf(p, 0, 0) == 0 by { NoFlags(p); }
    assert idx[..0] == Offsets(TokensBelow(p, 0), 0);
    while off < |p|
      invariant off <= |p| && (off < |p| ==> Carried(p, off, prev, carry))
      invariant prev == (if StateAt(p, off).inString then ALL_ONES else 0)
      invariant n <= idx.Length && idx[..n] == Offsets(TokensBelow(p, off), 0)
      invariant forall i :: n <= i < idx.Length ==> idx[i] == old(idx[i])
      invariant flags' == flags | FlagsOf(p, 0, off)
    {
      var cn := if |p| - off < 64 then |p| - off else 64;
      var q, bs, op, c0 := Classify(p, off, cn);
      var valid := if cn == 64 then ALL_ONES else OneHot(cn) - 1;
      ValidMask(cn, valid);
      FlagsJoin(p, off, off + cn, flags);
      n, prev, carry, flags' := Resolve(q, bs, op, c0, valid, prev, carry, off, idx, n, flags', p, cn);
      off := off + cn;
    }
    nidx := n;
    ok := prev == 0;
  }

  lemma Told(p: seq<bv8>, ix: seq<nat>)
    requires ix == Offsets(TokensBelow(p, |p|), 0)
    ensures exists s: seq<nat> :: Places(p, s) && |s| == |ix| && forall k :: 0 <= k < |ix| ==> ix[k] == s[k] % 0x1_0000_0000
    ensures StateAt(p, |p|).inString <==> LiveQuotes(p, |p|) % 2 == 1
    ensures FlagsOf(p, 0, |p|) == (if HasSlash(p) then 2 else 0) | (if HasControl(p) then 1 else 0)
  {
    PlacesExactly(p);
    InsideExactly(p, |p|);
    FlagsExactly(p);
    hide TokensBelow, Places;
    var s := TokensBelow(p, |p|);
    assert forall k :: 0 <= k < |ix| ==> ix[k] == s[k] % 0x1_0000_0000;
  }

  /**
   * yep_json_stage1_scalar: the index of a whole text. It holds exactly the scanner's tokens in order,
   * nothing past it is written, the verdict is the scanner's final string state, and both flags are exact.
   */
  method Stage1Scalar(p: seq<bv8>, idx: array<nat>, flags: bv32)
    returns (ok: bool, nidx: nat, flags': bv32)
    requires idx.Length >= |p| + 2
    modifies idx
    ensures nidx <= idx.Length && idx[..nidx] == Offsets(TokensBelow(p, |p|), 0)
    ensures forall i :: nidx <= i < idx.Length ==> idx[i] == old(idx[i])
    ensures ok == !StateAt(p, |p|).inString
    ensures flags' == flags | FlagsOf(p, 0, |p|)
    ensures exists s: seq<nat> :: Places(p, s) && |s| == nidx && forall k :: 0 <= k < nidx ==> idx[k] == s[k] % 0x1_0000_0000
    ensures ok <==> LiveQuotes(p, |p|) % 2 == 0
    ensures flags' == flags | ((if HasSlash(p) then 2 else 0) | (if HasControl(p) then 1 else 0))
  {
    ok, nidx, flags' := Blocks(p, idx, flags);
    Told(p, idx[..nidx]);
  }

  lemma NoFlags(p: seq<bv8>)
    ensures FlagsOf(p, 0, 0) == 0
  {}
}
