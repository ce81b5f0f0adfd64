/** The encoder as the program runs it: the output cursor, the sizing pass and the write pass. */
module CborWriter {
  import opened Wrappers
  import opened Bytes
  import opened CborRead
  import opened CborHeads
  import opened CborEncode
  import Floats
  import Utf8

  // ---- the output cursor --------------------------------------------------------

  class Buffer {
    const out: array<byte>
    var pos: nat

    constructor (out: array<byte>)
      ensures this.out == out && pos == 0
    {
      this.out := out;
      pos := 0;
    }

    ghost predicate Room(n: nat)
      reads this
    {
      pos + n <= out.Length
    }

    ghost function Written(): seq<byte>
      requires Room(0)
      reads this, out
    {
      out[..pos]
    }

    method Put(x: byte)
      requires Room(1)
      modifies `pos, out
      ensures pos == old(pos) + 1 && Room(0) && Written() == old(Written()) + [x]
    {
      out[pos] := x;
      pos := pos + 1;
    }

    /** memcpy of a whole string. */
    method PutAll(s: seq<byte>)
      requires Room(|s|)
      modifies `pos, out
      ensures pos == old(pos) + |s| && Room(0) && Written() == old(Written()) + s
    {
      var k := 0;
      while k < |s|
        invariant k <= |s| && pos == old(pos) + k && Room(|s| - k)
        invariant Written() == old(Written()) + s[..k]
      {
        assert s[..k + 1] == s[..k] + [s[k]];
        Put(s[k]);
        k := k + 1;
      }
      assert s[..k] == s;
    }

    /** The n bytes of v, most significant first. */
    method PutBigEndian(v: nat, n: nat)
      requires Room(n)
      modifies `pos, out
      ensures pos == old(pos) + n && Room(0) && Written() == old(Written()) + ToBigEndian(v, n)
    {
      var k := 0;
      ghost var s := ToBigEndian(v, n);
      while k < n
        invariant k <= n && pos == old(pos) + k && Room(n - k)
        invariant Written() == old(Written()) + s[..k]
      {
        BigEndianAt(v, n, k);
        assert s[..k + 1] == s[..k] + [s[k]];
        Put(v / Power256(n - 1 - k) % 256);
        k := k + 1;
      }
      assert s[..k] == s;
    }

    /** yep_cbor_put_head. */
    method PutHead(mt: nat, arg: nat)
      requires mt < 8 && arg < TWO_64 && Room(ArgBytes(arg))
      modifies `pos, out
      ensures pos == old(pos) + ArgBytes(arg) && Room(0) && Written() == old(Written()) + HeadBytes(mt, arg)
    {
      var n := ArgBytes(arg) - 1;
      Put(mt * 32 + if n == 0 then arg else PayloadInfo(n));
      PutBigEndian(arg, n);
    }

    /** yep_cbor_put_float. */
    method PutFloat(bits: nat)
      requires bits < TWO_64 && Room(1 + FloatWidth(bits))
      modifies `pos, out
      ensures pos == old(pos) + 1 + FloatWidth(bits) && Room(0) && Written() == old(Written()) + FloatBytes(bits)
    {
      hide Floats.DoubleToHalf, Floats.Narrow, Floats.FitsHalf, Floats.FitsSingle, Floats.IsNaN, ToBigEndian;
      var w := FloatWidth(bits);
      Put(if w == 2 then 0xF9 else if w == 4 then 0xFA else 0xFB);
      PutBigEndian(if w == 2 then Floats.DoubleToHalf(bits) else if w == 4 then Floats.Narrow(bits) else bits, w);
    }
  }

  // ---- tag chains -----------------------------------------------------------------

  /** The number at position i, which starts with a digit; None past 2^64. */
  method TagLink(tag: seq<byte>, start: nat) returns (val: Option<nat>, i: nat)
    requires start < |tag| && IsDigit(tag[start])
    ensures start < i <= |tag|
    ensures var j := LinkEnd(tag, start);
      val == if DigitsValue(tag[start..j]) < TWO_64 then Some(DigitsValue(tag[start..j])) else None
    ensures val.Some? ==> i == LinkEnd(tag, start)
  {
    i := start;
    var v := 0;
    assert tag[start..start] == [];
    while i < |tag| && IsDigit(tag[i])
      invariant start <= i <= |tag| && LinkEnd(tag, start) == LinkEnd(tag, i)
      invariant forall k :: start <= k < i ==> IsDigit(tag[k])
      invariant v == DigitsValue(tag[start..i]) && v < TWO_64
    {
      DigitAppended(tag, start, i);
      var d := tag[i] - 0x30;
      i := i + 1;
      if v > (TWO_64 - 1 - d) / 10 {
        LinkTooLarge(tag, start, i - 1);
        return None, i;
      }
      v := v * 10 + d;
    }
    val := Some(v);
  }

  /** cbor_tag_chain: -1 is None. */
  method TagChain(tag: seq<byte>, max: nat) returns (r: Option<seq<nat>>)
    ensures r == if tag == [] then Some([]) else Links(tag, 0, max)
  {
    hide DigitsValue, LinkEnd;
    var out: seq<nat> := [];
    var i := 0;
    if tag != [] { NothingJoined(Links(tag, 0, max)); }
    while i < |tag|
      invariant i <= |tag| && |out| <= max
      invariant i == |tag| ==> (if tag == [] then Some([]) else Links(tag, 0, max)) == Some(out)
      invariant i < |tag| ==> Links(tag, 0, max) == Joined(out, Links(tag, i, max - |out|))
      decreases |tag| - i
    {
      if |out| >= max || !IsDigit(tag[i]) {
        return None;
      }
      ghost var rest := Links(tag, i, max - |out|);
      var val, j := TagLink(tag, i);
      if val == None {
        return None;
      }
      if j < |tag| {
        if tag[j] != 0x20 || j + 1 >= |tag| {
          return None;
        }
        JoinedTwice(out, val.value, Links(tag, j + 1, max - |out| - 1));
        j := j + 1;
      }
      out := out + [val.value];
      i := j;
    }
    return Some(out);
  }

  lemma {:induction false} NothingJoined(r: Option<seq<nat>>)
    ensures Joined([], r) == r
  {
    if r.Some? { assert [] + r.value == r.value; }
  }

  lemma {:induction false} JoinedTwice(front: seq<nat>, v: nat, r: Option<seq<nat>>)
    ensures Joined(front, Joined([v], r)) == Joined(front + [v], r)
  {
    if r.Some? { assert front + ([v] + r.value) == front + [v] + r.value; }
  }

  ghost function Joined(front: seq<nat>, rest: Option<seq<nat>>): Option<seq<nat>> {
    if rest.Some? then Some(front + rest.value) else None
  }

  lemma {:induction false} DigitAppended(t: seq<byte>, i: nat, j: nat)
    requires i <= j < |t| && forall k :: i <= k <= j ==> IsDigit(t[k])
    ensures DigitsValue(t[i..j + 1]) == DigitsValue(t[i..j]) * 10 + (t[j] as int - 0x30)
  {
    var s := t[i..j + 1];
    assert s[..|s| - 1] == t[i..j];
  }

  /** Digits only make a number larger. */
  lemma {:induction false} LinkTooLarge(t: seq<byte>, i: nat, j: nat)
    requires i <= j < |t| && (forall k :: i <= k <= j ==> IsDigit(t[k])) && DigitsValue(t[i..j + 1]) >= TWO_64
    ensures DigitsValue(t[i..LinkEnd(t, i)]) >= TWO_64
    decreases |t| - j
  {
    EndBeyond(t, i, j);
    if j + 1 < |t| && IsDigit(t[j + 1]) {
      DigitAppended(t, i, j + 1);
      LinkTooLarge(t, i, j + 1);
    }
  }

  lemma {:induction false} EndBeyond(t: seq<byte>, i: nat, j: nat)
    requires i <= j < |t| && (forall k :: i <= k <= j ==> IsDigit(t[k]))
    ensures LinkEnd(t, i) == LinkEnd(t, j + 1)
    decreases j - i
  {
    if i < j { EndBeyond(t, i + 1, j); }
  }

  method SizeTags(tag: seq<byte>) returns (r: Option<nat>)
    ensures r == match Chain(tag) case None => None case Some(c) => Some(|TagHeads(c)|)
  {
    hide Links, TagHeads, HeadBytes;
    var chain := TagChain(tag, TAG_MAX_LINKS);
    if chain == None {
      return None;
    }
    var sz, t := 0, 0;
    var c := chain.value;
    NoTags(c);
    while t < |c|
      invariant t <= |c| && sz == |TagHeads(c[..t])|
    {
      NextTag(c, t);
      sz := sz + ArgBytes(c[t]);
      t := t + 1;
    }
    assert c[..t] == c;
    return Some(sz);
  }

  method PutTags(tag: seq<byte>, b: Buffer)
    requires Chain(tag).Some? && b.Room(|TagHeads(Chain(tag).value)|)
    modifies b`pos, b.out
    ensures b.pos == old(b.pos) + |TagHeads(Chain(tag).value)| && b.Room(0)
    ensures b.Written() == old(b.Written()) + TagHeads(Chain(tag).value)
  {
    hide Links, TagHeads;
    var chain := TagChain(tag, TAG_MAX_LINKS);
    PutChain(chain.value, b);
  }

  method PutChain(c: seq<nat>, b: Buffer)
    requires (forall k :: 0 <= k < |c| ==> c[k] < TWO_64) && b.Room(|TagHeads(c)|)
    modifies b`pos, b.out
    ensures b.pos == old(b.pos) + |TagHeads(c)| && b.Room(0) && b.Written() == old(b.Written()) + TagHeads(c)
  {
    hide HeadBytes, TagHeads;
    var t := 0;
    NoTags(c);
    while t < |c|
      invariant t <= |c| && b.Room(0) && b.pos == old(b.pos) + |TagHeads(c[..t])|
      invariant b.Written() == old(b.Written()) + TagHeads(c[..t])
    {
      NextTag(c, t);
      TagsPrefix(c, t + 1);
      b.PutHead(6, c[t]);
      t := t + 1;
    }
    assert c[..t] == c;
  }

  lemma {:induction false} NoTags(c: seq<nat>)
    ensures TagHeads(c[..0]) == []
  {}

  lemma {:induction false} NextTag(c: seq<nat>, t: nat)
    requires t < |c| && forall k :: 0 <= k < |c| ==> c[k] < TWO_64
    ensures TagHeads(c[..t + 1]) == TagHeads(c[..t]) + HeadBytes(6, c[t])
  {
    assert c[..t + 1][..t] == c[..t];
  }

  lemma {:induction false} TagsPrefix(c: seq<nat>, t: nat)
    requires t <= |c| && forall k :: 0 <= k < |c| ==> c[k] < TWO_64
    ensures |TagHeads(c[..t])| <= |TagHeads(c)|
    decreases |c|
  {
    if t < |c| {
      assert c[..|c| - 1][..t] == c[..t];
      TagsPrefix(c[..|c| - 1], t);
    } else {
      assert c[..t] == c;
    }
  }

  // ---- text ---------------------------------------------------------------------------

  /** yep_cbor_simple_of: -1 is None. */
  method SimpleWord(v: seq<byte>) returns (r: Option<nat>)
    ensures r == SimpleOf(v)
  {
    if v == UNDEFINED {
      return Some(23);
    }
    if |v| > 9 && v[..7] == SIMPLE_OPEN && v[|v| - 1] == ')' as int {
      var val: nat, i := 0, 7;
      ghost var d := v[7..|v| - 1];
      assert v[7..7] == [];
      while i + 1 < |v|
        invariant 7 <= i <= |v| - 1 && val <= 255
        invariant forall k :: 7 <= k < i ==> IsDigit(v[k])
        invariant val == DigitsValue(v[7..i])
      {
        if !IsDigit(v[i]) {
          assert d[i - 7] == v[i];
          return None;
        }
        DigitAppended(v, 7, i);
        val := val * 10 + (v[i] as int - 0x30);
        if val > 255 {
          SimpleTooLarge(v, i);
          return None;
        }
        i := i + 1;
      }
      if 24 <= val < 32 {
        return None;
      }
      return Some(val);
    }
    return None;
  }

  lemma {:induction false} SimpleTooLarge(v: seq<byte>, i: nat)
    requires 7 <= i < |v| - 1 && (forall k :: 7 <= k <= i ==> IsDigit(v[k])) && DigitsValue(v[7..i + 1]) > 255
    requires v != UNDEFINED
    ensures SimpleOf(v) == None
    decreases |v| - i
  {
    if i + 1 < |v| - 1 {
      if IsDigit(v[i + 1]) {
        DigitAppended(v, 7, i + 1);
        SimpleTooLarge(v, i + 1);
      } else {
        assert v[7..|v| - 1][i + 1 - 7] == v[i + 1];
      }
    } else {
      assert v[7..i + 1] == v[7..|v| - 1];
    }
  }

  /** A string item, or the simple value it names. */
  method PutText(tagged: bool, v: seq<byte>, b: Buffer)
    requires |v| < TWO_64 && b.Room(|TextBytes(tagged, v)|)
    modifies b`pos, b.out
    ensures b.pos == old(b.pos) + |TextBytes(tagged, v)| && b.Room(0)
    ensures b.Written() == old(b.Written()) + TextBytes(tagged, v)
  {
    hide SimpleOf, Utf8.Valid, HeadBytes;
    if !tagged {
      var sv := SimpleWord(v);
      if sv.Some? {
        if sv.value < 24 {
          b.Put(0xE0 + sv.value);
        } else {
          b.Put(0xF8);
          b.Put(sv.value);
        }
        return;
      }
    }
    b.PutHead(if v == [] || Utf8.Valid(v) then 3 else 2, |v|);
    b.PutAll(v);
    EmptyIsText(v);
  }

  lemma EmptyIsText(v: seq<byte>)
    ensures v == [] ==> Utf8.Valid(v)
  {}

  method PutInt(n: int, b: Buffer)
    requires 0 - TWO_64 <= n < TWO_64 && b.Room(|IntBytes(n)|)
    modifies b`pos, b.out
    ensures b.pos == old(b.pos) + |IntBytes(n)| && b.Room(0) && b.Written() == old(b.Written()) + IntBytes(n)
  {
    hide HeadBytes;
    if n < 0 {
      b.PutHead(1, 0 - (n + 1));
    } else {
      b.PutHead(0, n);
    }
  }

  // ---- the insertion sort ------------------------------------------------------------

  /** The sort of cbor_canon_prepare, in place on the order array. */
  method SortOrder(keys: seq<seq<byte>>, order: array<nat>)
    requires order.Length == |keys|
    modifies order
    ensures order[..] == OrderOf(keys, |keys|)
  {
    var p := 0;
    while p < order.Length
      invariant p <= order.Length && forall k :: 0 <= k < p ==> order[k] == k
    {
      order[p] := p;
      p := p + 1;
    }
    if order.Length == 0 {
      return;
    }
    p := 1;
    assert order[..1] == OrderOf(keys, 1) by { FirstKey(keys); }
    while p < order.Length
      invariant 1 <= p <= order.Length && order[..p] == OrderOf(keys, p)
      invariant forall k :: p <= k < order.Length ==> order[k] == k
    {
      Place(keys, order, p);
      assert order[..p + 1] == Insert(keys, OrderOf(keys, p), p);
      p := p + 1;
    }
  }

  lemma {:induction false} FirstKey(keys: seq<seq<byte>>)
    requires |keys| > 0
    ensures OrderOf(keys, 1) == [0]
  {}

  /** memcmp over the shorter length, then the lengths. */
  method KeyBelow(a: seq<byte>, b: seq<byte>) returns (below: bool)
    ensures below <==> Below(a, b)
  {
    var min := if |a| < |b| then |a| else |b|;
    var k := 0;
    while k < min && a[k] == b[k]
      invariant k <= min && a[..k] == b[..k]
    {
      k := k + 1;
    }
    below := if k < min then a[k] < b[k] else |a| < |b|;
    if below { BelowAt(a, b, k); } else if Below(a, b) { FirstDiffers(a, b, k); }
  }

  /** No two places where two strings first differ. */
  lemma FirstDiffers(a: seq<byte>, b: seq<byte>, k: nat)
    requires Below(a, b) && k <= |a| && k <= |b| && a[..k] == b[..k] && (k < |a| && k < |b| ==> a[k] != b[k])
    ensures if k < |a| && k < |b| then a[k] < b[k] else |a| < |b|
  {
    PrefixSame(a, b, k);
    if |a| < |b| && a == b[..|a|] {
      assert a[..|a|] == a;
      PrefixSame(a, b, |a|);
    } else {
      var i :| 0 <= i < |a| && i < |b| && a[..i] == b[..i] && a[i] < b[i];
      PrefixSame(a, b, i);
    }
  }

  lemma PrefixSame(a: seq<byte>, b: seq<byte>, k: nat)
    requires k <= |a| && k <= |b| && a[..k] == b[..k]
    ensures forall i :: 0 <= i < k ==> a[i] == b[i]
  {
    forall i | 0 <= i < k ensures a[i] == b[i] { assert a[..k][i] == b[..k][i]; }
  }

  /** One round: order[p] slides left to its place in the sorted prefix. */
  method Place(keys: seq<seq<byte>>, order: array<nat>, p: nat)
    requires 1 <= p < order.Length == |keys| && order[p] == p && Indices(order[..p], |keys|)
    modifies order
    ensures forall k :: 0 <= k <= p ==> order[k] == Insert(keys, old(order[..p]), p)[k]
    ensures forall k :: p < k < order.Length ==> order[k] == old(order[k])
  {
    hide Insert, Less, Below;
    ghost var s := order[..p];
    var cur, j := order[p], p;
    assert s[..p] == s && s[p..] == [];
    var below := j > 0;
    while below && j > 0
      invariant !below ==> j == 0 || !Less(keys[cur], keys[s[j - 1]])
      invariant j <= p && Insert(keys, s, cur) == Insert(keys, s[..j], cur) + s[j..]
      invariant forall k :: 0 <= k < j ==> order[k] == s[k]
      invariant forall k :: j < k <= p ==> order[k] == s[k - 1]
      invariant forall k :: p < k < order.Length ==> order[k] == old(order[k])
      decreases j, below
    {
      below := KeyBelow(keys[cur], keys[order[j - 1]]);
      LessExactly(keys[cur], keys[order[j - 1]]);
      if below {
        InsertPast(keys, s, j, cur);
        order[j] := order[j - 1];
        j := j - 1;
      }
    }
    order[j] := cur;
    InsertHere(keys, s[..j], cur);
    ShiftedAt(s, j, cur);
  }

  /** cur between the two halves of s. */
  lemma ShiftedAt(s: seq<nat>, j: nat, cur: nat)
    requires j <= |s|
    ensures var r := s[..j] + [cur] + s[j..];
      |r| == |s| + 1 && r[j] == cur && (forall k :: 0 <= k < j ==> r[k] == s[k]) && forall k :: j < k <= |s| ==> r[k] == s[k - 1]
  {}

  lemma {:induction false} InsertPast(keys: seq<seq<byte>>, s: seq<nat>, j: nat, cur: nat)
    requires Indices(s, |keys|) && cur < |keys| && 0 < j <= |s| && Less(keys[cur], keys[s[j - 1]])
    ensures Insert(keys, s[..j], cur) + s[j..] == Insert(keys, s[..j - 1], cur) + s[j - 1..]
  {
    hide Less;
    assert s[..j][..j - 1] == s[..j - 1];
    assert s[j - 1..] == [s[j - 1]] + s[j..];
  }

  lemma {:induction false} InsertHere(keys: seq<seq<byte>>, s: seq<nat>, cur: nat)
    requires Indices(s, |keys|) && cur < |keys| && (s == [] || !Less(keys[cur], keys[s[|s| - 1]]))
    ensures Insert(keys, s, cur) == s + [cur]
  {}
}
