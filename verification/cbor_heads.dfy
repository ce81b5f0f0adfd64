/** What the encoder writes for one head, one tag chain and one scalar. */
module CborHeads {
  import opened Wrappers
  import opened Bytes
  import opened CborRead
  import Floats
  import Utf8

  // ---- heads ------------------------------------------------------------------

  /** yep_cbor_arg_bytes: the initial byte and the argument's payload. */
  function ArgBytes(arg: nat): (n: nat)
    requires arg < TWO_64
    ensures 1 <= n <= 9
  {
    if arg < 24 then 1 else if arg <= 0xFF then 2 else if arg <= 0xFFFF then 3 else if arg <= 0xFFFF_FFFF then 5 else 9
  }

  /** Additional information for a payload of n bytes. */
  function PayloadInfo(n: nat): (ai: nat)
    requires n == 1 || n == 2 || n == 4 || n == 8
    ensures 24 <= ai < 28 && ArgWidth(ai) == n
  {
    if n == 1 then 24 else if n == 2 then 25 else if n == 4 then 26 else 27
  }

  /** A head: the shortest form of its argument. */
  function HeadBytes(mt: nat, arg: nat): (s: seq<byte>)
    requires mt < 8 && arg < TWO_64
    ensures |s| == ArgBytes(arg)
  {
    var n := ArgBytes(arg) - 1;
    if n == 0 then [mt * 32 + arg] else [mt * 32 + PayloadInfo(n)] + ToBigEndian(arg, n)
  }

  /** The payload byte the shift picks: k counted from the most significant. */
  lemma {:induction false} BigEndianAt(v: nat, n: nat, k: nat)
    requires k < n
    ensures ToBigEndian(v, n)[k] == v / Power256(n - 1 - k) % 256
  {
    if k == n - 1 {
      assert Power256(0) == 1;
    } else {
      BigEndianAt(v / 256, n - 1, k);
      DivideTwice(v, Power256(n - 2 - k));
    }
  }

  lemma {:induction false} DivideTwice(v: nat, d: nat)
    requires d > 0
    ensures 256 * d > 0 && v / 256 / d == v / (256 * d)
  {
    Floats.Euclid(v / 256, d);
    var q, r := v / 256 / d, v / 256 % d;
    assert v == 256 * (v / 256) + v % 256;
    Regroup(q, d, r);
    Floats.DivisionUnique(v, 256 * d, q, 256 * r + v % 256);
  }

  lemma {:induction false} Regroup(q: int, d: int, r: int)
    ensures 256 * (q * d + r) == q * (256 * d) + 256 * r
  {}

  // ---- tag chains ---------------------------------------------------------------

  /** Where the digits starting at i end. */
  function LinkEnd(t: seq<byte>, i: nat): (j: nat)
    requires i <= |t|
    ensures i <= j <= |t|
    ensures forall k :: i <= k < j ==> IsDigit(t[k])
    ensures j < |t| ==> !IsDigit(t[j])
    decreases |t| - i
  {
    if i < |t| && IsDigit(t[i]) then LinkEnd(t, i + 1) else i
  }

  /** The links from position i on: decimal numbers below 2^64 between single spaces, at most max of them. */
  function Links(t: seq<byte>, i: nat, max: nat): (r: Option<seq<nat>>)
    requires i <= |t|
    ensures r.Some? ==> |r.value| <= max && forall k :: 0 <= k < |r.value| ==> r.value[k] < TWO_64
    decreases |t| - i
  {
    var j := LinkEnd(t, i);
    if max == 0 || j == i then None
    else
      var v := DigitsValue(t[i..j]);
      if v >= TWO_64 then None
      else if j == |t| then Some([v])
      else if t[j] != 0x20 || j + 1 >= |t| then None
      else
        match Links(t, j + 1, max - 1)
        case None => None
        case Some(rest) => Some([v] + rest)
  }

  /** cbor_tag_chain: the tag numbers, outermost first. */
  function Chain(tag: seq<byte>): (r: Option<seq<nat>>)
    ensures r.Some? ==> |r.value| <= TAG_MAX_LINKS && forall k :: 0 <= k < |r.value| ==> r.value[k] < TWO_64
  {
    if tag == [] then Some([]) else Links(tag, 0, TAG_MAX_LINKS)
  }

  function TagHeads(chain: seq<nat>): seq<byte>
    requires forall k :: 0 <= k < |chain| ==> chain[k] < TWO_64
  {
    if chain == [] then [] else TagHeads(chain[..|chain| - 1]) + HeadBytes(6, chain[|chain| - 1])
  }

  // ---- scalars ---------------------------------------------------------------------

  /** Integer text as the number kernel reads it, when it fits int64: at most 32 bytes, no leading zero. */
  function IntScan(v: seq<byte>): (r: Option<int>)
    ensures r.Some? ==> 0 - INT64_MAX - 1 <= r.value <= INT64_MAX
  {
    var neg := v != [] && v[0] == 0x2D;
    var d := if neg then v[1..] else v;
    if |v| > 32 || d == [] || !AllDigits(d) || (|d| > 1 && d[0] == 0x30) then None
    else
      var n := DigitsValue(d);
      if n > (if neg then INT64_MAX + 1 else INT64_MAX) then None else Some(if neg then 0 - n else n)
  }

  /** cbor_bool_value. */
  predicate BoolValue(v: seq<byte>) {
    v != [] && (v[0] == 't' as int || v[0] == 'T' as int || v[0] == 'y' as int || v[0] == 'Y' as int
                || v[0] == 'o' as int || v[0] == 'O' as int)
  }

  const UNDEFINED: seq<byte> := Ascii("undefined")
  const SIMPLE_OPEN: seq<byte> := Ascii("simple(")

  /** yep_cbor_simple_of: the simple value a diagnostic word names. Ten bytes at least, so never one digit. */
  function SimpleOf(v: seq<byte>): (r: Option<nat>)
    ensures r.Some? ==> r.value < 24 || 32 <= r.value < 256
  {
    if v == UNDEFINED then Some(23)
    else if |v| > 9 && v[..7] == SIMPLE_OPEN && v[|v| - 1] == ')' as int then
      var d := v[7..|v| - 1];
      if !(forall i :: 0 <= i < |d| ==> IsDigit(d[i])) then None
      else
        var n := DigitsValue(d);
        if n > 255 || 24 <= n < 32 then None else Some(n)
    else None
  }

  /** The reserved words are ASCII. */
  lemma {:induction false} WordIsText(v: seq<byte>)
    requires SimpleOf(v).Some?
    ensures Utf8.Valid(v)
  {
    hide DigitsValue, Utf8.Valid;
    if v != UNDEFINED {
      var d := v[7..|v| - 1];
      forall k | 0 <= k < |v| ensures v[k] < 0x80 {
        if k < 7 { assert v[k] == v[..7][k]; } else if k < |v| - 1 { assert IsDigit(d[k - 7]); }
      }
    }
    Utf8.AsciiValid(v);
  }

  function SimpleBytes(n: nat): (s: seq<byte>)
    requires n < 24 || 32 <= n < 256
    ensures |s| == if n < 24 then 1 else 2
  {
    if n < 24 then [0xE0 + n] else [0xF8, n]
  }

  /** A text or byte string item: text exactly when it is UTF-8. */
  function StringItem(v: seq<byte>): seq<byte>
    requires |v| < TWO_64
  {
    HeadBytes(if Utf8.Valid(v) then 3 else 2, |v|) + v
  }

  /** An untagged string that names a simple value becomes that value. */
  function TextBytes(tagged: bool, v: seq<byte>): seq<byte>
    requires |v| < TWO_64
  {
    if !tagged && SimpleOf(v).Some? then SimpleBytes(SimpleOf(v).value) else StringItem(v)
  }

  function IntBytes(n: int): seq<byte>
    requires 0 - TWO_64 <= n < TWO_64
  {
    if n < 0 then HeadBytes(1, -(n + 1)) else HeadBytes(0, n)
  }

  /** yep_cbor_float_width. */
  function FloatWidth(bits: nat): (w: nat)
    requires bits < TWO_64
    ensures w == 2 || w == 4 || w == 8
  {
    if Floats.IsNaN(bits) || Floats.FitsHalf(bits) then 2 else if Floats.FitsSingle(bits) then 4 else 8
  }

  /** yep_cbor_put_float. */
  function FloatBytes(bits: nat): (s: seq<byte>)
    requires bits < TWO_64
    ensures |s| == 1 + FloatWidth(bits)
  {
    var w := FloatWidth(bits);
    if w == 2 then [0xF9] + ToBigEndian(Floats.DoubleToHalf(bits), 2)
    else if w == 4 then [0xFA] + ToBigEndian(Floats.Narrow(bits), 4)
    else [0xFB] + ToBigEndian(bits, 8)
  }
}
