/** The Marshal writer as the program runs it: the counting scan, then one sizing and one writing pass. */
module MarshalEmit {
  import opened PowersOfTwo
  import opened Bytes
  import opened MarshalNumber
  import opened MarshalWrite
  import MarshalRecords

  const LIMBS_MAX: nat := 272

  /** The number a run of limbs spells, low limb first. */
  ghost function LimbsValue(s: seq<limb>): (v: nat)
    ensures v < Power65536(|s|)
  {
    if s == [] then 0 else s[0] + 65536 * LimbsValue(s[1..])
  }

  lemma {:induction false} LimbAppended(s: seq<limb>, x: limb)
    ensures LimbsValue(s + [x]) == LimbsValue(s) + x * Power65536(|s|)
  {
    if s != [] {
      LimbAppended(s[1..], x);
      assert (s + [x])[1..] == s[1..] + [x];
      assert x * Power65536(|s|) == 65536 * (x * Power65536(|s| - 1)) by { Scale(x, Power65536(|s| - 1)); }
    } else {
      assert ([x])[1..] == [];
      assert s + [x] == [x];
      assert LimbsValue([x]) == x + 65536 * LimbsValue([]);
      assert Power65536(0) == 1;
    }
  }

  lemma Scale(x: nat, p: nat)
    ensures x * (65536 * p) == 65536 * (x * p)
  {
  }

  lemma TwoBytes(v: nat, n: nat)
    ensures ToLittleEndian(v, n + 2) == [v % 256, v / 256 % 256] + ToLittleEndian(v / 256 / 256, n)
  {
    assert ToLittleEndian(v, n + 2) == [v % 256] + ToLittleEndian(v / 256, n + 1);
    assert ToLittleEndian(v / 256, n + 1) == [v / 256 % 256] + ToLittleEndian(v / 256 / 256, n);
  }

  predicate SplitLimbs(s: seq<limb>, b: seq<byte>) {
    |b| == 2 * |s| && forall k :: 0 <= k < |s| ==> b[2 * k] == s[k] % 256 && b[2 * k + 1] == s[k] / 256
  }

  lemma {:induction false} LimbBytes(s: seq<limb>, b: seq<byte>)
    requires SplitLimbs(s, b)
    ensures b == ToLittleEndian(LimbsValue(s), 2 * |s|)
  {
    if s != [] {
      var v := LimbsValue(s);
      SplitTail(s, b);
      LimbBytes(s[1..], b[2..]);
      TwoBytes(v, 2 * (|s| - 1));
      LowLimb(v, s[0], LimbsValue(s[1..]));
      hide ToLittleEndian, LimbsValue;
      assert b == [b[0], b[1]] + b[2..];
    }
  }

  lemma SplitTail(s: seq<limb>, b: seq<byte>)
    requires SplitLimbs(s, b) && s != []
    ensures SplitLimbs(s[1..], b[2..]) && b[0] == s[0] % 256 && b[1] == s[0] / 256
  {
    assert b[2 * 0] == s[0] % 256;
    forall k | 0 <= k < |s| - 1 ensures b[2..][2 * k] == s[1..][k] % 256 && b[2..][2 * k + 1] == s[1..][k] / 256 {
      assert b[2 * (k + 1)] == s[k + 1] % 256;
    }
  }

  lemma LowLimb(v: nat, x: limb, rest: nat)
    requires v == x + 65536 * rest
    ensures v % 256 == x % 256 && v / 256 % 256 == x / 256 && v / 256 / 256 == rest
  {
  }

  /** t = limb * 10 + carry: the carry that leaves stays a digit. */
  lemma CarryIsDigit(x: limb, carry: nat)
    requires carry <= 9
    ensures (x * 10 + carry) / 65536 <= 9
    ensures (x * 10 + carry) % 65536 + 65536 * ((x * 10 + carry) / 65536) == x * 10 + carry
  {
  }

  /** One limb of the multiplication. */
  lemma LimbStep(low: nat, was: nat, p: nat, x: nat, carry: nat, y: nat, out: nat, d: nat)
    requires low + carry * p == was * 10 + d && y + 65536 * out == x * 10 + carry
    ensures low + y * p + out * (65536 * p) == (was + x * p) * 10 + d
  {
    assert (y + 65536 * out) * p == (x * 10 + carry) * p;
    assert (y + 65536 * out) * p == y * p + 65536 * (out * p);
    assert (x * 10 + carry) * p == 10 * (x * p) + carry * p;
    Scale(out, p);
  }

  lemma NoLimbs()
    ensures LimbsValue([]) == 0 && Power65536(0) == 1
  {
  }

  lemma NextLimb(low: seq<limb>, was: seq<limb>, x: limb, carry: nat, y: limb, left: nat, d: nat)
    requires |low| == |was| && y + 65536 * left == x * 10 + carry
    requires LimbsValue(low) + carry * Power65536(|low|) == LimbsValue(was) * 10 + d
    ensures LimbsValue(low + [y]) + left * Power65536(|low| + 1) == LimbsValue(was + [x]) * 10 + d
  {
    assert Power65536(|low| + 1) == 65536 * Power65536(|low|);
    hide LimbsValue, Power65536;
    LimbStep(LimbsValue(low), LimbsValue(was), Power65536(|low|), x, carry, y, left, d);
    LimbAppended(low, y);
    LimbAppended(was, x);
  }

  /** Multiply the first nl limbs by ten and add the carry. */
  method TimesTenPlus(limbs: array<limb>, nl: nat, digit: nat) returns (carry: nat)
    requires nl <= limbs.Length && digit <= 9
    modifies limbs
    ensures carry <= 9
    ensures LimbsValue(limbs[..nl]) + carry * Power65536(nl) == LimbsValue(old(limbs[..nl])) * 10 + digit
  {
    NoLimbs();
    hide LimbsValue, Power65536;
    carry := digit;
    var j := 0;
    ghost var was := limbs[..nl];
    assert limbs[..0] == [] == was[..0];
    while j < nl
      invariant j <= nl && carry <= 9
      invariant forall k :: j <= k < nl ==> limbs[k] == was[k]
      invariant LimbsValue(limbs[..j]) + carry * Power65536(j) == LimbsValue(was[..j]) * 10 + digit
    {
      ghost var low := limbs[..j];
      var x := limbs[j];
      var t := x * 10 + carry;
      CarryIsDigit(x, carry);
      NextLimb(low, was[..j], x, carry, t % 65536, t / 65536, digit);
      assert was[..j + 1] == was[..j] + [x];
      limbs[j] := t % 65536;
      carry := t / 65536;
      assert limbs[..j + 1] == low + [t % 65536];
      j := j + 1;
    }
    assert was[..nl] == was;
  }

  /** While a carry is left there is a limb to take it: 1299 digits stay below 271 limbs. */
  lemma CarryHasRoom(v: nat, carry: nat, low: nat, nl: nat, max: nat)
    requires v == low + carry * Power65536(nl) && carry > 0 && v < Power65536(max)
    ensures nl < max
  {
    hide Power65536;
    AtLeast(carry, Power65536(nl));
    if nl >= max { Power65536Mono(max, nl); }
  }

  lemma AtLeast(c: nat, p: nat)
    requires c > 0
    ensures c * p >= p
  {
  }

  /** The carry goes into the next limb, and never past the array. */
  method PushCarry(limbs: array<limb>, count: nat, left: nat, ghost v: nat, ghost max: nat) returns (nl: nat)
    requires limbs.Length == LIMBS_MAX && 1 <= count <= LIMBS_MAX && left <= 9
    requires v == LimbsValue(limbs[..count]) + left * Power65536(count) && v < Power65536(max) && max < LIMBS_MAX
    modifies limbs
    ensures 1 <= nl <= LIMBS_MAX && LimbsValue(limbs[..nl]) == v
  {
    hide Power65536, LimbsValue;
    var carry := left;
    nl := count;
    if carry > 0 { CarryHasRoom(v, carry, LimbsValue(limbs[..nl]), nl, max); }
    while carry != 0 && nl < LIMBS_MAX
      invariant 1 <= nl <= LIMBS_MAX && carry <= 9
      invariant v == LimbsValue(limbs[..nl]) + carry * Power65536(nl)
      invariant carry != 0 ==> nl < LIMBS_MAX
      decreases carry
    {
      ghost var low := limbs[..nl];
      LimbAppended(low, carry);
      limbs[nl] := carry % 65536;
      nl := nl + 1;
      assert limbs[..nl] == low + [carry];
      carry := carry / 65536;
    }
  }

  /** Leading zero limbs are dropped, down to one limb. */
  method StripLimbs(limbs: array<limb>, count: nat) returns (nl: nat)
    requires 1 <= count <= limbs.Length
    ensures 1 <= nl <= count && LimbsValue(limbs[..nl]) == LimbsValue(limbs[..count])
    ensures nl == LimbCount(LimbsValue(limbs[..count]))
  {
    nl := count;
    while nl > 1 && limbs[nl - 1] == 0
      invariant 1 <= nl <= count && LimbsValue(limbs[..nl]) == LimbsValue(limbs[..count])
    {
      TopLimb(limbs[..nl]);
      assert limbs[..nl][..nl - 1] == limbs[..nl - 1];
      nl := nl - 1;
    }
    TopLimb(limbs[..nl]);
    LimbCountIs(LimbsValue(limbs[..nl]), nl);
  }

  lemma TopLimb(s: seq<limb>)
    requires s != []
    ensures var top := s[|s| - 1];
      && (top == 0 ==> LimbsValue(s) == LimbsValue(s[..|s| - 1]))
      && (top > 0 ==> LimbsValue(s) >= Power65536(|s| - 1))
  {
    hide Power65536, LimbsValue;
    var top := s[|s| - 1];
    LimbAppended(s[..|s| - 1], top);
    assert s == s[..|s| - 1] + [top];
    if top > 0 { AtLeast(top, Power65536(|s| - 1)); }
  }

  /** The limbs of the text: how many are in use, the highest one not zero unless it is the only one. */
  method TextLimbs(b: seq<byte>, limbs: array<limb>) returns (nl: nat)
    requires |b| <= 1299 && forall i :: 0 <= i < |b| ==> IsDigit(b[i]) || IsSeparator(b[i])
    requires limbs.Length == LIMBS_MAX && forall k :: 0 <= k < LIMBS_MAX ==> limbs[k] == 0
    modifies limbs
    ensures 1 <= nl <= LIMBS_MAX && LimbsValue(limbs[..nl]) == TextValue(b)
    ensures nl == LimbCount(TextValue(b))
  {
    hide LimbsValue, TextValue, Power65536, Power10, LimbCount;
    nl := 1;
    var i := 0;
    assert limbs[..1] == [0];
    assert b[..0] == [];
    NothingYet();
    while i < |b|
      invariant i <= |b| && 1 <= nl <= LIMBS_MAX
      invariant LimbsValue(limbs[..nl]) == TextValue(b[..i])
    {
      TextValueStep(b, i);
      if !IsSeparator(b[i]) {
        var carry := TimesTenPlus(limbs, nl, b[i] as int - 0x30);
        DigitsFit(TextValue(b[..i + 1]), i + 1);
        nl := PushCarry(limbs, nl, carry, TextValue(b[..i + 1]), 271);
      }
      i := i + 1;
    }
    assert b[..i] == b;
    nl := StripLimbs(limbs, nl);
  }

  lemma NothingYet()
    ensures LimbsValue([0]) == 0 == TextValue([])
  {
    assert [0][1..] == [];
  }

  // ---- the counting scan ------------------------------------------------------------------

  /** pre_scan on one tree's records; not ok when the host walk has to take them. */
  method PreScan(recs: seq<Record>) returns (ok: bool, counts: seq<nat>)
    requires AllStorable(recs)
    ensures ok == !AnyRejected(recs)
    ensures ok ==> counts == Counts(recs)
  {
    var opens, i := 0, 0;
    while i < |recs|
      invariant i <= |recs| && opens == Opens(recs, i)
      invariant forall k :: 0 <= k < i ==> !Rejected(recs[k])
    {
      if Rejected(recs[i]) {
        return false, [];
      }
      if IsOpen(recs[i]) {
        opens := opens + 1;
      }
      i := i + 1;
    }
    var c := CountElements(recs, opens);
    return true, c;
  }

  /** The stack pass: every element credits the innermost open container. */
  method CountElements(recs: seq<Record>, opens: nat) returns (counts: seq<nat>)
    requires opens == Opens(recs, |recs|)
    ensures counts == Counts(recs)
  {
    var tally := new nat[opens];
    var idxs: seq<nat> := [];
    var maps: seq<bool> := [];
    var oi, i := 0, 0;
    ghost var t := Tally([], []);
    while i < |recs|
      invariant i <= |recs| && oi == Opens(recs, i) && TallyInside(t)
      invariant Mirrors(t, idxs, maps) && oi <= opens && t.counts == tally[..oi]
      invariant Counts(recs) == Tallied(recs, i, t).counts
    {
      hide Tallied;
      OpensMono(recs, i + 1, |recs|);
      TallyOnce(recs, i, t);
      var r := recs[i];
      var sp := |idxs|;
      if !(r.kind.Close? || r.kind.Anchor? || r.kind.Doc?) {
        CreditOf(t, idxs, maps, r);
        if sp > 0 && (!maps[sp - 1] || r.isKey) {
          tally[idxs[sp - 1]] := tally[idxs[sp - 1]] + 1;
        }
        assert tally[..oi] == Credit(t, r).counts;
      }
      StepOf(t, r);
      hide Credit, TallyStep;
      t := TallyStep(t, r);
      if IsOpen(r) {
        idxs, maps := idxs + [oi], maps + [r.kind.MapOpen?];
        tally[oi] := 0;
        oi := oi + 1;
      } else if r.kind.Close? && sp > 0 {
        idxs, maps := idxs[..sp - 1], maps[..sp - 1];
      }
      i := i + 1;
    }
    counts := tally[..];
  }

  /** The two parallel stacks of the scan are the stack of slots. */
  ghost predicate Mirrors(t: Tally, idxs: seq<nat>, maps: seq<bool>) {
    |idxs| == |maps| == |t.stack| && forall k :: 0 <= k < |idxs| ==> t.stack[k] == Slot(idxs[k], maps[k])
  }

  lemma CreditOf(t: Tally, idxs: seq<nat>, maps: seq<bool>, r: Record)
    requires Mirrors(t, idxs, maps) && TallyInside(t)
    ensures Credit(t, r).stack == t.stack
    ensures var sp := |idxs|;
      if sp > 0 && (!maps[sp - 1] || r.isKey) then
        idxs[sp - 1] < |t.counts| && Credit(t, r).counts == t.counts[idxs[sp - 1] := t.counts[idxs[sp - 1]] + 1]
      else Credit(t, r) == t
  {
    if |idxs| > 0 { assert t.stack[|idxs| - 1] == Slot(idxs[|idxs| - 1], maps[|idxs| - 1]); }
  }

  lemma StepOf(t: Tally, r: Record)
    requires TallyInside(t)
    ensures TallyInside(TallyStep(t, r))
    ensures IsOpen(r) ==> TallyStep(t, r) == Tally(Credit(t, r).stack + [Slot(|Credit(t, r).counts|, r.kind.MapOpen?)],
                                                   Credit(t, r).counts + [0])
    ensures r.kind.Close? ==> TallyStep(t, r) == if t.stack == [] then t else t.(stack := t.stack[..|t.stack| - 1])
    ensures r.kind.Anchor? || r.kind.Doc? ==> TallyStep(t, r) == t
    ensures !(IsOpen(r) || r.kind.Close? || r.kind.Anchor? || r.kind.Doc?) ==> TallyStep(t, r) == Credit(t, r)
  {
  }

  lemma TallyOnce(recs: seq<Record>, i: nat, t: Tally)
    requires i < |recs|
    ensures Tallied(recs, i, t) == Tallied(recs, i + 1, TallyStep(t, recs[i]))
  {
  }

  // ---- the passes -----------------------------------------------------------------------------

  method WidthOf(m: nat) returns (k: nat)
    ensures k == Width(m)
  {
    var um: nat := m;
    k := 0;
    while um != 0
      invariant Width(m) == k + Width(um)
      decreases um
    {
      um := um / 256;
      k := k + 1;
    }
  }

  /** The k low bytes of v, lowest first. */
  method LowBytes(v: nat, k: nat) returns (b: seq<byte>)
    ensures b == ToLittleEndian(v, k)
  {
    var payload := v;
    b := [];
    var i := 0;
    while i < k
      invariant i <= k && ToLittleEndian(v, k) == b + ToLittleEndian(payload, k - i)
    {
      assert b + ([payload % 256] + ToLittleEndian(payload / 256, k - i - 1))
          == b + [payload % 256] + ToLittleEndian(payload / 256, k - i - 1);
      b := b + [payload % 256];
      payload := payload / 256;
      i := i + 1;
    }
    assert b + [] == b;
  }

  /** How many bits m takes. */
  ghost function Bits(m: nat): nat { if m == 0 then 0 else Bits(m / 2) + 1 }

  lemma {:induction false} BitsBound(m: nat)
    ensures m < Pow2(Bits(m)) && (m > 0 ==> Bits(m) > 0 && Pow2(Bits(m) - 1) <= m)
  {
    if m > 0 {
      BitsBound(m / 2);
      Doubled(m, Pow2(Bits(m / 2)), Pow2(Bits(m)));
      if m > 1 { Doubled(m, Pow2(Bits(m / 2) - 1), Pow2(Bits(m / 2))); }
    }
  }

  lemma Doubled(m: nat, p: nat, q: nat)
    requires q == 2 * p
    ensures m / 2 < p ==> m < q
    ensures p <= m / 2 ==> q <= m
  {
  }

  method BitLength(m: nat) returns (bits: nat)
    ensures bits == Bits(m)
  {
    var um := m;
    bits := 0;
    while um != 0
      invariant Bits(m) == bits + Bits(um)
      decreases um
    {
      um := um / 2;
      bits := bits + 1;
    }
  }

  lemma LimbsOfBits(m: nat, bits: nat)
    requires m > 0 && bits == Bits(m)
    ensures LimbCount(m) == (bits + 15) / 16
  {
    hide LimbCount;
    BitsBound(m);
    var n := (bits + 15) / 16;
    LimbBits(n);
    LimbBits(n - 1);
    Pow2Mono(bits, 16 * n);
    Pow2Mono(16 * (n - 1), bits - 1);
    LimbCountIs(m, n);
  }

  /** The limbs of v as byte pairs. */
  method LimbPairs(v: nat, limbs: nat) returns (b: seq<byte>)
    ensures b == ToLittleEndian(v, 2 * limbs)
  {
    var m := v;
    b := [];
    var i := 0;
    while i < limbs
      invariant i <= limbs && ToLittleEndian(v, 2 * limbs) == b + ToLittleEndian(m, 2 * (limbs - i))
    {
      TwoBytes(m, 2 * (limbs - i - 1));
      assert b + ([m % 256, m / 256 % 256] + ToLittleEndian(m / 256 / 256, 2 * (limbs - i - 1)))
          == b + [m % 256, m / 256 % 256] + ToLittleEndian(m / 256 / 256, 2 * (limbs - i - 1));
      b := b + [m % 256, m / 256 % 256];
      m := m / 256 / 256;
      i := i + 1;
    }
    assert b + [] == b;
  }

  lemma LongSplit(x: int, k: nat, b: seq<byte>)
    requires INT64_MIN < x < -INT64_MIN && Magnitude(x) > 122 && k == Width(Magnitude(x)) <= 8
    requires b == ToLittleEndian(if x < 0 then Power256(k) - Magnitude(x) else x, k)
    ensures LongBytes(x) == [if x < 0 then 256 - k else k] + b
  {
    hide ToLittleEndian, Power256, Width;
  }

  /**
   * The writer. A sizing pass only advances len; a writing pass also fills the buffer. out is what has been
   * written, or would have been.
   */
  class Emitter {
    const recs: seq<Record>
    const counts: seq<nat>
    const compat: bool
    const sizing: bool
    const buf: array<byte>
    var len: nat
    var nreg: nat
    var lastReg: nat
    var lastWasReg: bool
    var anchors: seq<Binding>
    var openSeq: nat
    ghost var out: seq<byte>

    ghost predicate Valid()
      reads this, buf
    {
      Counted(recs, counts) && |out| == len && (!sizing ==> len <= buf.Length && buf[..len] == out)
    }

    ghost function St(): State
      reads this
    {
      State(nreg, anchors, openSeq, if lastWasReg then Registered(lastReg) else Immediate)
    }

    predicate Room(n: nat)
      reads this
    {
      sizing || len + n <= buf.Length
    }

    constructor (recs: seq<Record>, counts: seq<nat>, compat: bool, sizing: bool, buf: array<byte>)
      requires Counted(recs, counts)
      ensures Valid() && St() == START && out == [] && len == 0
      ensures this.recs == recs && this.counts == counts && this.compat == compat
      ensures this.sizing == sizing && this.buf == buf
    {
      this.recs, this.counts, this.compat, this.sizing, this.buf := recs, counts, compat, sizing, buf;
      len, nreg, lastReg, lastWasReg, anchors, openSeq := 0, 0, 0, false, [], 0;
      out := [];
    }

    /** e_put. */
    method Put(s: seq<byte>)
      requires Valid() && Room(|s|)
      modifies `len, `out, buf
      ensures Valid() && len == old(len) + |s| && out == old(out) + s
    {
      if !sizing {
        var k := 0;
        while k < |s|
          invariant k <= |s| && len == old(len) && out == old(out) && buf[..len] == out
          invariant forall j :: 0 <= j < k ==> buf[len + j] == s[j]
        {
          buf[len + k] := s[k];
          k := k + 1;
        }
        assert buf[..len + |s|] == out + s;
      }
      len := len + |s|;
      out := out + s;
    }

    /** e_long. */
    method Long(x: int)
      requires Valid() && INT64_MIN < x < -INT64_MIN && Room(|LongBytes(x)|)
      modifies `len, `out, buf
      ensures Valid() && len == old(len) + |LongBytes(x)| && out == old(out) + LongBytes(x)
    {
      var m := if x < 0 then -x else x;
      if x == 0 {
        Put([0]);
        return;
      }
      if m <= 122 {
        Put([if x < 0 then 256 - (m + 5) else m + 5]);
        return;
      }
      LongTail(x, m);
    }

    /** The size form. */
    method LongTail(x: int, m: nat)
      requires Valid() && INT64_MIN < x < -INT64_MIN && m == Magnitude(x) > 122 && Room(|LongBytes(x)|)
      modifies `len, `out, buf
      ensures Valid() && len == old(len) + |LongBytes(x)| && out == old(out) + LongBytes(x)
    {
      hide LongBytes, ToLittleEndian, Power256, Width;
      var k := WidthOf(m);
      WidthOfInt64(m);
      var b := LowBytes(if x < 0 then Power256(k) - m else m, k);
      var tag: byte := if x < 0 then 256 - k else k;
      LongSplit(x, k, b);
      Put([tag]);
      Put(b);
      assert old(out) + ([tag] + b) == old(out) + [tag] + b;
    }

    /** Marshal's 'l': sign, limb count, limbs. */
    method Bignum(negative: bool, limbs: nat, b: seq<byte>)
      requires Valid() && limbs < 0x1_0000_0000 && Room(2 + |LongBytes(limbs)| + |b|)
      modifies `len, `out, buf
      ensures Valid() && len == old(len) + 2 + |LongBytes(limbs)| + |b|
      ensures out == old(out) + ([0x6C, if negative then 0x2D else 0x2B] + LongBytes(limbs) + b)
    {
      hide LongBytes;
      Put([0x6C]);
      Put([if negative then 0x2D else 0x2B]);
      Long(limbs);
      Put(b);
      Regrouped(old(out), 0x6C, if negative then 0x2D else 0x2B, LongBytes(limbs), b);
    }

    /** e_int. */
    method Integer(x: int64)
      requires Valid() && Room(|IntBytes(x)|)
      modifies `len, `out, `lastWasReg, buf
      ensures Valid() && len == old(len) + |IntBytes(x)| && out == old(out) + IntBytes(x) && !lastWasReg
    {
      hide LongBytes, ToLittleEndian, LimbCount, Pow2;
      lastWasReg := false;
      if x == INT64_MIN {
        LowestInt();
        Bignum(true, 4, [0, 0, 0, 0, 0, 0, 0, 0x80]);
        return;
      }
      var m := if x < 0 then -x else x;
      if m < 0x4000_0000 {
        Put([0x69]);
        Long(x);
        assert old(out) + [0x69] + LongBytes(x) == old(out) + ([0x69] + LongBytes(x));
        return;
      }
      var bits := BitLength(m);
      LimbsOfBits(m, bits);
      var limbs := (bits + 15) / 16;
      var b := LimbPairs(m, limbs);
      Int64Limbs(m);
      Bignum(x < 0, limbs, b);
    }

    method Register() returns (id: nat)
      modifies `nreg
      ensures id == old(nreg) && nreg == old(nreg) + 1
    {
      id := nreg;
      nreg := nreg + 1;
    }

    /** A tag byte, a length and that many bytes. */
    method Sized(tag: byte, s: seq<byte>)
      requires Valid() && |s| < 0x1_0000_0000 && Room(1 + |LongBytes(|s|)| + |s|)
      modifies `len, `out, buf
      ensures Valid() && len == old(len) + 1 + |LongBytes(|s|)| + |s| && out == old(out) + ([tag] + LongBytes(|s|) + s)
    {
      hide LongBytes;
      Put([tag]);
      Long(|s|);
      Put(s);
      Joined(old(out), [tag], LongBytes(|s|), s);
    }

    /** e_str. */
    method Text(s: seq<byte>)
      requires Valid() && |s| < 0x1_0000_0000 && Room(|StrBytes(s)|)
      modifies `len, `out, `nreg, `lastReg, `lastWasReg, buf
      ensures Valid() && len == old(len) + |StrBytes(s)| && out == old(out) + StrBytes(s)
      ensures nreg == old(nreg) + 1 && lastWasReg && lastReg == old(nreg)
    {
      hide LongBytes;
      var id := Register();
      Put([0x49]);
      Sized(0x22, s);
      Put(STRING_TAIL);
      assert old(out) + [0x49] + ([0x22] + LongBytes(|s|) + s) + STRING_TAIL == old(out) + StrBytes(s);
      lastReg := id;
      lastWasReg := true;
    }

    /** e_bignum_text. */
    method BignumOf(text: seq<byte>)
      requires Valid() && PsychInt(text) && |text| < 1300
      requires Room(|BignumBytes(Negative(text), BignumValue(text))|)
      modifies `len, `out, `lastWasReg, buf
      ensures Valid() && len == old(len) + |BignumBytes(Negative(text), BignumValue(text))| && !lastWasReg
      ensures out == old(out) + BignumBytes(Negative(text), BignumValue(text))
    {
      hide PsychInt, LongBytes, ToLittleEndian, LimbCount, LimbsValue, TextValue;
      var negative, body := text != [] && text[0] == 0x2D, if Signed(text) then text[1..] else text;
      BodyDigits(text);
      var limbs := new limb[LIMBS_MAX](i => 0);
      var nl := TextLimbs(body, limbs);
      lastWasReg := false;
      var b := PairsOf(limbs, nl);
      Bignum(negative, nl, b);
    }

    /** The writing of one record ended as the specification has it. */
    twostate predicate Did(w: Written)
      reads this, buf
    {
      w.Written? && Valid() && len == old(len) + |w.bytes| && out == old(out) + w.bytes && St() == w.st
    }

    ghost predicate Fits(w: Written)
      reads this
    {
      sizing || (w.Written? && Room(|w.bytes|))
    }

    method Boolean(r: Record)
      requires Valid() && Storable(r) && r.kind.Bool? && Fits(WriteScalar(r, compat, St()))
      modifies `len, `out, `nreg, `lastReg, `lastWasReg, buf
      ensures Did(WriteScalar(r, compat, old(St())))
    {
      hide StrBytes;
      if |r.text| == 1 {
        Text(r.text);
      } else {
        lastWasReg := false;
        Put([if r.b then 0x54 else 0x46]);
      }
    }

    method Float(r: Record)
      requires Valid() && Storable(r) && r.kind.Float? && Fits(WriteScalar(r, compat, St()))
      modifies `len, `out, `nreg, `lastReg, `lastWasReg, buf
      ensures Did(WriteScalar(r, compat, old(St())))
    {
      hide StrBytes, FloatText, LongBytes;
      if FloatText(compat, r.text) {
        var id := Register();
        Sized(0x66, r.repr);
        lastReg := id;
        lastWasReg := true;
      } else {
        Text(r.text);
      }
    }

    method String(r: Record)
      requires Valid() && Storable(r) && r.kind.Str? && Fits(WriteScalar(r, compat, St()))
      modifies `len, `out, `nreg, `lastReg, `lastWasReg, buf
      ensures Did(WriteScalar(r, compat, old(St())))
    {
      hide StrBytes, LongBytes, BignumText, BignumBytes, BignumValue, SymbolText;
      BignumGate(r);
      SymbolLength(r.text);
      if BignumText(r) {
        BignumOf(r.text);
      } else if r.b && SymbolText(r.text) {
        lastWasReg := false;
        Sized(0x3A, r.text[1..]);
      } else {
        Text(r.text);
      }
    }

    /** e_scalar. */
    method Scalar(r: Record) returns (ok: bool)
      requires Valid() && Storable(r) && Fits(WriteScalar(r, compat, St()))
      modifies `len, `out, `nreg, `lastReg, `lastWasReg, buf
      ensures ok == WriteScalar(r, compat, old(St())).Written?
      ensures ok ==> Did(WriteScalar(r, compat, old(St())))
    {
      ok := true;
      if r.kind.Bool? {
        Boolean(r);
      } else if r.kind.Float? {
        Float(r);
      } else if r.kind.Str? {
        String(r);
      } else if r.kind.Int? {
        hide IntBytes;
        Integer(r.p);
      } else if r.kind.Null? {
        lastWasReg := false;
        Put([0x30]);
      } else {
        ok := false;
      }
    }

    /** anchor_find: the newest binding wins. */
    method FindAnchor(name: seq<byte>) returns (t: Target)
      ensures t == Find(anchors, name)
    {
      var i := |anchors|;
      assert anchors[..i] == anchors;
      while i > 0
        invariant i <= |anchors| && Find(anchors, name) == Find(anchors[..i], name)
      {
        assert anchors[..i][..i - 1] == anchors[..i - 1];
        if anchors[i - 1].name == name {
          return anchors[i - 1].target;
        }
        i := i - 1;
      }
      return Pending;
    }

    /** e_alias. */
    method Link(name: seq<byte>) returns (ok: bool)
      requires Valid() && Sound(St()) && Fits(WriteAlias(name, compat, St()))
      modifies `len, `out, `nreg, `lastReg, `lastWasReg, buf
      ensures ok == WriteAlias(name, compat, old(St())).Written?
      ensures ok ==> Did(WriteAlias(name, compat, old(St())))
    {
      hide Find, WriteScalar, LongBytes;
      var t := FindAnchor(name);
      match t {
        case Pending => ok := false;
        case Object(id) =>
          lastWasReg := false;
          Put([0x40]);
          Long(id);
          assert old(out) + [0x40] + LongBytes(id) == old(out) + ([0x40] + LongBytes(id));
          ok := true;
        case Copy(rec) => ok := Scalar(rec);
      }
    }

    twostate predicate Emits(e: Emitted)
      reads this, buf
    {
      e.Emitted? && Valid() && len == old(len) + |e.bytes| && out == old(out) + e.bytes && St() == e.st
    }

    ghost predicate Takes(e: Emitted)
      reads this
    {
      sizing || (e.Emitted? && Room(|e.bytes|))
    }

    /** e_value. */
    method Value(i: nat) returns (ok: bool, next: nat)
      requires Valid() && i < |recs| && At(recs, i, St()) && Takes(WriteValue(recs, counts, compat, i, St()))
      modifies `len, `out, `nreg, `lastReg, `lastWasReg, `anchors, `openSeq, buf
      ensures ok == WriteValue(recs, counts, compat, i, old(St())).Emitted?
      ensures ok ==> Emits(WriteValue(recs, counts, compat, i, old(St())))
      ensures ok ==> next == WriteValue(recs, counts, compat, i, old(St())).next
      decreases |recs| - i, 2
    {
      hide At, WriteBody, Counted;
      if !recs[i].kind.Anchor? {
        ok, next := Body(i);
        return;
      }
      if i + 1 == |recs| {
        return false, 0;
      }
      AnnounceFrom(i);
      anchors := anchors + [Binding(recs[i].text, Pending)];
      var pending := |anchors| - 1;
      ok, next := Value(i + 1);
      if ok {
        var t := if lastWasReg then Object(lastReg) else Copy(recs[i + 1]);
        anchors := anchors[pending := anchors[pending].(target := t)];
      }
      lastWasReg := false;
    }

    lemma AnnounceFrom(i: nat)
      requires Counted(recs, counts) && i + 1 < |recs| && At(recs, i, St()) && recs[i].kind.Anchor?
      ensures At(recs, i + 1, Announce(St(), recs[i].text))
    {
      AnnounceKeepsAt(recs, i, St(), recs[i].text);
    }

    /** e_body. */
    method Body(i: nat) returns (ok: bool, next: nat)
      requires Valid() && i < |recs| && At(recs, i, St()) && Takes(WriteBody(recs, counts, compat, i, St()))
      modifies `len, `out, `nreg, `lastReg, `lastWasReg, `anchors, `openSeq, buf
      ensures ok == WriteBody(recs, counts, compat, i, old(St())).Emitted?
      ensures ok ==> Emits(WriteBody(recs, counts, compat, i, old(St())))
      ensures ok ==> next == WriteBody(recs, counts, compat, i, old(St())).next
      decreases |recs| - i, 1
    {
      hide WriteValue, WriteElements, WriteScalar, WriteAlias, LongBytes;
      var r := recs[i];
      next := i + 1;
      if r.kind.Alias? {
        ok := Link(r.text);
      } else if !IsOpen(r) {
        ok := Scalar(r);
      } else {
        ok, next := Container(i);
      }
    }

    method Container(i: nat) returns (ok: bool, next: nat)
      requires Valid() && i < |recs| && At(recs, i, St()) && IsOpen(recs[i])
      requires Takes(WriteBody(recs, counts, compat, i, St()))
      modifies `len, `out, `nreg, `lastReg, `lastWasReg, `anchors, `openSeq, buf
      ensures ok == WriteBody(recs, counts, compat, i, old(St())).Emitted?
      ensures ok ==> Emits(WriteBody(recs, counts, compat, i, old(St())))
      ensures ok ==> next == WriteBody(recs, counts, compat, i, old(St())).next
      decreases |recs| - i, 0
    {
      hide WriteValue, WriteElements, LongBytes, Counted, At;
      OpensAhead(i);
      var id := Register();
      ghost var count := counts[openSeq];
      Put([Bracket(recs[i].kind)]);
      Long(counts[openSeq]);
      openSeq := openSeq + 1;
      ghost var body := WriteElements(recs, counts, compat, i + 1, St());
      ghost var head := out;
      var j;
      ok, j := Elements(i + 1);
      if !ok {
        return false, 0;
      }
      lastReg := id;
      lastWasReg := true;
      next := j + 1;
      assert out == old(out) + ([Bracket(recs[i].kind)] + LongBytes(count) + body.bytes);
    }

    lemma OpensAhead(i: nat)
      requires Counted(recs, counts) && i < |recs| && At(recs, i, St()) && IsOpen(recs[i])
      ensures openSeq < |counts| && counts[openSeq] < 0x1_0000_0000 && At(recs, i + 1, Enter(St()))
    {
      OpensMono(recs, i + 1, |recs|);
      EnterKeepsAt(recs, i, St());
    }

    /** The loop over a container's values, up to its close record. */
    method Elements(i: nat) returns (ok: bool, j: nat)
      requires Valid() && i <= |recs| && At(recs, i, St()) && Takes(WriteElements(recs, counts, compat, i, St()))
      modifies `len, `out, `nreg, `lastReg, `lastWasReg, `anchors, `openSeq, buf
      ensures ok == WriteElements(recs, counts, compat, i, old(St())).Emitted?
      ensures ok ==> Emits(WriteElements(recs, counts, compat, i, old(St())))
      ensures ok ==> j == WriteElements(recs, counts, compat, i, old(St())).next
      decreases |recs| - i, 3
    {
      hide WriteValue, Counted, At;
      ghost var all := WriteElements(recs, counts, compat, i, St());
      ghost var done := [];
      j := i;
      assert Prefix([], all) == all;
      while j < |recs| && !recs[j].kind.Close?
        invariant i <= j <= |recs| && Valid() && At(recs, j, St())
        invariant len == old(len) + |done| && out == old(out) + done
        invariant all == Prefix(done, WriteElements(recs, counts, compat, j, St()))
        invariant sizing || all.Emitted?
        decreases |recs| - j
      {
        ghost var v := WriteValue(recs, counts, compat, j, St());
        ghost var rest := if v.Emitted? then WriteElements(recs, counts, compat, v.next, v.st) else Failed;
        assert WriteElements(recs, counts, compat, j, St()) == if v.Emitted? then Prefix(v.bytes, rest) else Failed;
        ok, j := Value(j);
        if !ok {
          return false, 0;
        }
        PrefixTwice(done, v.bytes, rest);
        done := done + v.bytes;
      }
      if j == |recs| {
        return false, 0;
      }
      ok := true;
    }
  }

  lemma PrefixTwice(a: seq<byte>, b: seq<byte>, e: Emitted)
    ensures Prefix(a, Prefix(b, e)) == Prefix(a + b, e)
  {
    if e.Emitted? { assert a + (b + e.bytes) == a + b + e.bytes; }
  }

  /** The first pass only counts. */
  method SizingPass(recs: seq<Record>, counts: seq<nat>, compat: bool) returns (ok: bool, total: nat)
    requires recs != [] && Counted(recs, counts) && At(recs, 0, START)
    ensures var e := WriteValue(recs, counts, compat, 0, START);
      ok == e.Emitted? && (ok ==> total == 2 + |e.bytes|)
  {
    hide WriteValue, Counted, At;
    var none := new byte[0];
    var e := new Emitter(recs, counts, compat, true, none);
    e.Put([0x04, 0x08]);
    var next;
    ok, next := e.Value(0);
    total := e.len;
  }

  /** The second pass fills the buffer the first one measured, to the last byte. */
  method WritingPass(recs: seq<Record>, counts: seq<nat>, compat: bool, buf: array<byte>)
    requires recs != [] && Counted(recs, counts) && At(recs, 0, START)
    requires WriteValue(recs, counts, compat, 0, START).Emitted?
    requires buf.Length == 2 + |WriteValue(recs, counts, compat, 0, START).bytes|
    modifies buf
    ensures buf[..] == [0x04, 0x08] + WriteValue(recs, counts, compat, 0, START).bytes
  {
    hide WriteValue, Counted, At;
    var e := new Emitter(recs, counts, compat, false, buf);
    e.Put([0x04, 0x08]);
    var ok, next := e.Value(0);
    assert ok && e.len == buf.Length && buf[..e.len] == buf[..];
  }

  /** yeptris_marshal_node on the records of a tree: the two passes never drift apart. */
  method MarshalNode(recs: seq<Record>, compat: bool) returns (r: Stream)
    requires AllStorable(recs) && recs != []
    ensures r == Marshal(recs, compat)
    ensures r.Stream? ==> MarshalRecords.Spells(recs, compat, r.bytes)
  {
    hide WriteValue, Counted, MarshalRecords.Spells;
    if Marshal(recs, compat).Stream? { MarshalRecords.StreamSpells(recs, compat); }
    var ok, counts := PreScan(recs);
    if !ok {
      return Unsupported;
    }
    CountsFit(recs);
    StartsAt(recs);
    var fine, total := SizingPass(recs, counts, compat);
    if !fine {
      return Unsupported;
    }
    var buf := new byte[total];
    WritingPass(recs, counts, compat, buf);
    r := Stream(buf[..]);
  }

  lemma StartsAt(recs: seq<Record>)
    ensures At(recs, 0, START)
  {
  }

  lemma BignumGate(r: Record)
    ensures BignumText(r) ==> PsychInt(r.text) && |r.text| < 1300
  {
  }

  lemma SymbolLength(p: seq<byte>)
    ensures SymbolText(p) ==> |p| > 1
  {
  }

  /** The limbs in use, each as two bytes, the low one first. */
  method PairsOf(limbs: array<limb>, nl: nat) returns (b: seq<byte>)
    requires nl <= limbs.Length
    ensures b == ToLittleEndian(LimbsValue(limbs[..nl]), 2 * nl)
  {
    b := [];
    var i := 0;
    while i < nl
      invariant i <= nl && SplitLimbs(limbs[..i], b)
    {
      b := b + [limbs[i] % 256, limbs[i] / 256];
      i := i + 1;
    }
    LimbBytes(limbs[..nl], b);
  }

  lemma Joined(a: seq<byte>, b: seq<byte>, c: seq<byte>, d: seq<byte>)
    ensures a + b + c + d == a + (b + c + d)
  {
  }

  lemma Regrouped(a: seq<byte>, x: byte, y: byte, d: seq<byte>, e: seq<byte>)
    ensures a + [x] + [y] + d + e == a + ([x, y] + d + e)
  {
    assert a + [x] + [y] == a + [x, y];
    assert a + [x, y] + d + e == a + ([x, y] + d + e);
  }

  /** The one int64 whose magnitude is no int64 takes the bytes of its bignum. */
  lemma LowestInt()
    ensures IntBytes(INT64_MIN) == [0x6C, 0x2D] + LongBytes(4) + [0, 0, 0, 0, 0, 0, 0, 0x80]
  {
    hide LongBytes, ToLittleEndian, LimbCount;
    LowestLimbs();
  }

  lemma LowestLimbs()
    ensures LimbCount(-INT64_MIN) == 4 && ToLittleEndian(-INT64_MIN, 8) == [0, 0, 0, 0, 0, 0, 0, 0x80]
  {
    LimbsAreBytePairs(4);
    LimbsAreBytePairs(3);
    Powers();
    assert Power256(6) == 256 * (256 * Power256(4));
    LimbCountIs(-INT64_MIN, 4);
    TopPair();
    hide *;
    ZeroPair(0x8000, 2);
    ZeroPair(0x8000_0000, 4);
    ZeroPair(0x8000_0000_0000, 6);
    assert [0, 0] + ([0, 0] + ([0, 0] + [0, 0x80])) == [0, 0, 0, 0, 0, 0, 0, 0x80];
  }

  lemma TopPair()
    ensures ToLittleEndian(0x8000, 2) == [0, 0x80]
  {
    TwoBytes(0x8000, 0);
  }

  lemma ZeroPair(v: nat, n: nat)
    ensures ToLittleEndian(65536 * v, n + 2) == [0, 0] + ToLittleEndian(v, n)
  {
    TwoBytes(65536 * v, n);
  }
}
