/** What the encoder makes of a node's text, and what it writes for a scalar, in terms of the bytes. */
module CborLiterals {
  import opened Wrappers
  import opened Bytes
  import opened CborRead
  import opened CborHeads
  import opened CborEncode
  import opened CborValues
  import Utf8

  // ---- numerals ------------------------------------------------------------------------

  /** The digits '0' to '9'. */
  predicate Digits(d: seq<byte>) { forall k :: 0 <= k < |d| ==> 0x30 <= d[k] <= 0x39 }

  lemma {:induction false} DecimalOfDigits(d: seq<byte>)
    requires d != [] && Digits(d) && (|d| > 1 ==> d[0] != 0x30)
    ensures Decimal(DigitsValue(d)) == d && (|d| > 1 ==> DigitsValue(d) >= 10)
    decreases |d|
  {
    hide Decimal, DigitsValue;
    DigitsLast(d);
    var init, u := d[..|d| - 1], d[|d| - 1];
    assert d == init + [u];
    if init != [] {
      DecimalOfDigits(init);
      HeadNonzero(init);
    }
    DecimalLast(DigitsValue(init), u - 0x30);
  }

  lemma DigitsLast(d: seq<byte>)
    requires d != [] && Digits(d)
    ensures Digits(d[..|d| - 1]) && DigitsValue(d) == 10 * DigitsValue(d[..|d| - 1]) + (d[|d| - 1] as int - 0x30)
    ensures |d| == 1 ==> DigitsValue(d[..|d| - 1]) == 0
  {}

  lemma DecimalLast(v: nat, u: nat)
    requires u < 10
    ensures Decimal(10 * v + u) == (if v == 0 then [] else Decimal(v)) + [0x30 + u]
  {
    hide Decimal;
    var n := 10 * v + u;
    assert n / 10 == v && n % 10 == u;
    DecimalStep(n);
  }

  lemma DecimalStep(n: nat)
    ensures Decimal(n) == (if n < 10 then [] else Decimal(n / 10)) + [0x30 + n % 10]
  {}

  lemma HeadNonzero(d: seq<byte>)
    requires d != [] && Digits(d) && d[0] != 0x30 && (|d| > 1 ==> DigitsValue(d) >= 10)
    ensures DigitsValue(d) > 0
  {
    if |d| == 1 { assert d[..0] == []; }
  }

  /** An integer of at most 64 bits is taken from its decimal text, and zero from "-0" as well. */
  lemma IntScanExactly(v: seq<byte>, x: int)
    ensures IntScan(v) == Some(x) <==>
      -0x8000_0000_0000_0000 <= x < 0x8000_0000_0000_0000 && (v == Numeral(x) || (x == 0 && v == [0x2D, 0x30]))
  {
    hide Decimal, DigitsValue;
    if IntScan(v) == Some(x) { IntScanned(v, x); }
    if -0x8000_0000_0000_0000 <= x < 0x8000_0000_0000_0000 {
      if v == Numeral(x) { NumeralScans(x); }
      if v == [0x2D, 0x30] { ZeroScans(v); }
    }
  }

  function Numeral(x: int): seq<byte> {
    if x < 0 then [0x2D] + Decimal(0 - x) else Decimal(x)
  }

  lemma ZeroScans(v: seq<byte>)
    requires v == [0x2D, 0x30]
    ensures IntScan(v) == Some(0)
  {
    assert v[1..] == [0x30] && v[1..][..0] == [] && DigitsValue([]) == 0 && DigitsValue([0x30]) == 0;
  }

  lemma IntScanned(v: seq<byte>, x: int)
    requires IntScan(v) == Some(x)
    ensures -0x8000_0000_0000_0000 <= x < 0x8000_0000_0000_0000 && (v == Numeral(x) || (x == 0 && v == [0x2D, 0x30]))
  {
    hide Decimal, DigitsValue;
    var neg := v != [] && v[0] == 0x2D;
    var d := if neg then v[1..] else v;
    ScannedDigits(v, x, d);
    DecimalOfDigits(d);
    if neg {
      assert v == [0x2D] + d;
      if x == 0 { assert d == [0x30] by { Zero(); } }
    }
  }

  lemma ScannedDigits(v: seq<byte>, x: int, d: seq<byte>)
    requires IntScan(v) == Some(x) && d == if v != [] && v[0] == 0x2D then v[1..] else v
    ensures d != [] && Digits(d) && (|d| > 1 ==> d[0] != 0x30)
    ensures x == if v[0] == 0x2D then 0 - DigitsValue(d) else DigitsValue(d)
  {
    hide DigitsValue;
  }

  lemma Zero()
    ensures Decimal(0) == [0x30]
  {}

  lemma NumeralScans(x: int)
    requires -0x8000_0000_0000_0000 <= x < 0x8000_0000_0000_0000
    ensures IntScan(Numeral(x)) == Some(x)
  {
    hide Decimal, DigitsValue;
    var m: nat := if x < 0 then 0 - x else x;
    var d := Decimal(m);
    DecimalRoundTrip(m);
    Uint64Digits(m);
    if m == 0 { Zero(); }
    assert IsDigit(d[0]);
    if x < 0 { assert Numeral(x)[1..] == d; }
  }

  // ---- diagnostic words ------------------------------------------------------------------

  /** "undefined", or "simple(" with at least two digits of a value that has an encoding. */
  lemma SimpleOfExactly(v: seq<byte>, n: nat)
    ensures SimpleOf(v) == Some(n) <==> WordOf(v, n)
  {
    hide DigitsValue;
    Words();
    if exists d :: Names(v, d, n) {
      var d :| Names(v, d, n);
      assert v[..7] == SIMPLE_OPEN && v[7..|v| - 1] == d && v[|v| - 1] == 0x29;
    }
    if SimpleOf(v) == Some(n) && v != UNDEFINED {
      var d := v[7..|v| - 1];
      assert v == v[..7] + d + [v[|v| - 1]];
      assert Names(v, d, n);
    }
  }

  ghost predicate WordOf(v: seq<byte>, n: nat) {
    || (v == [0x75, 0x6E, 0x64, 0x65, 0x66, 0x69, 0x6E, 0x65, 0x64] && n == 23)
    || exists d :: Names(v, d, n)
  }

  predicate Names(v: seq<byte>, d: seq<byte>, n: nat) {
    && v == [0x73, 0x69, 0x6D, 0x70, 0x6C, 0x65, 0x28] + d + [0x29]
    && |d| >= 2 && Digits(d) && DigitsValue(d) == n && n < 256 && !(24 <= n < 32)
  }

  lemma Words()
    ensures UNDEFINED == [0x75, 0x6E, 0x64, 0x65, 0x66, 0x69, 0x6E, 0x65, 0x64]
    ensures SIMPLE_OPEN == [0x73, 0x69, 0x6D, 0x70, 0x6C, 0x65, 0x28] && ')' as int == 0x29
  {}

  // ---- tag texts ---------------------------------------------------------------------------

  function Spaced(ds: seq<seq<byte>>): seq<byte> {
    if ds == [] then [] else if |ds| == 1 then ds[0] else ds[0] + ([0x20] + Spaced(ds[1..]))
  }

  /** Numerals, and what they say. */
  predicate Says(ds: seq<seq<byte>>, c: seq<nat>) {
    && |ds| == |c|
    && forall k :: 0 <= k < |c| ==> ds[k] != [] && Digits(ds[k]) && DigitsValue(ds[k]) == c[k] && c[k] < 0x1_0000_0000_0000_0000
  }

  /** A tag text is taken exactly when it is up to 64 numerals below 2^64 with one space between them. */
  lemma ChainExactly(t: seq<byte>, c: seq<nat>)
    ensures Chain(t) == Some(c) <==> |c| <= 64 && exists ds :: Says(ds, c) && t == Spaced(ds)
  {
    hide DigitsValue, Links, Spaced, Says;
    NothingSaid();
    if Chain(t) == Some(c) {
      if t == [] {
        assert Says([], c);
      } else {
        TextNonempty(t, c);
        var ds := LinksSay(t, 0, 64, c);
        assert t[0..] == t;
        assert Says(ds, c) && t == Spaced(ds);
      }
    }
    if |c| <= 64 && exists ds :: Says(ds, c) && t == Spaced(ds) {
      var ds :| Says(ds, c) && t == Spaced(ds);
      if c == [] {
        NoneSaid(ds, c);
      } else {
        SpacedLinks([], ds, 64, c);
        assert [] + t == t;
        SomeSaid(ds, c);
        TextNonempty(t, c);
      }
    }
  }

  lemma NothingSaid()
    ensures Spaced([]) == [] && Says([], [])
  {}

  lemma NoneSaid(ds: seq<seq<byte>>, c: seq<nat>)
    requires Says(ds, c) && c == []
    ensures ds == []
  {}

  lemma TextNonempty(t: seq<byte>, c: seq<nat>)
    requires t != []
    ensures Chain(t) == Links(t, 0, 64)
  {}

  lemma SomeSaid(ds: seq<seq<byte>>, c: seq<nat>)
    requires Says(ds, c) && c != []
    ensures Spaced(ds) != []
  {
    SpacedSome(ds);
  }

  /** The first link, and where the others start. */
  lemma LinksFirst(t: seq<byte>, i: nat, max: nat, c: seq<nat>) returns (j: nat)
    requires i <= |t| && Links(t, i, max) == Some(c)
    ensures max > 0 && c != [] && i < j <= |t| && Digits(t[i..j])
    ensures DigitsValue(t[i..j]) == c[0] && c[0] < 0x1_0000_0000_0000_0000
    ensures if j == |t| then c == [c[0]] else t[j] == 0x20 && Links(t, j + 1, max - 1) == Some(c[1..])
  {
    hide DigitsValue;
    j := LinkEnd(t, i);
  }

  lemma {:induction false} LinksSay(t: seq<byte>, i: nat, max: nat, c: seq<nat>) returns (ds: seq<seq<byte>>)
    requires i <= |t| && Links(t, i, max) == Some(c)
    ensures Says(ds, c) && t[i..] == Spaced(ds) && c != [] && |c| <= max
    decreases |t| - i
  {
    hide DigitsValue, Links, Says, Digits;
    var j := LinksFirst(t, i, max, c);
    if j == |t| {
      ds := [t[i..j]];
      NothingSaid();
      assert ds[1..] == [] && c[1..] == [];
      FirstSaid(ds, c, []);
    } else {
      var rest := LinksSay(t, j + 1, max - 1, c[1..]);
      ds := [t[i..j]] + rest;
      assert ds[1..] == rest;
      assert t[i..] == t[i..j] + ([t[j]] + t[j + 1..]);
      FirstSaid(ds, c, rest);
      SaidAlike(rest, c[1..]);
    }
  }

  lemma SaidAlike(ds: seq<seq<byte>>, c: seq<nat>)
    requires Says(ds, c)
    ensures |ds| == |c|
  {}

  lemma FirstSaid(ds: seq<seq<byte>>, c: seq<nat>, rest: seq<seq<byte>>)
    requires ds != [] && c != [] && ds[1..] == rest && Says(rest, c[1..])
    requires ds[0] != [] && Digits(ds[0]) && DigitsValue(ds[0]) == c[0] && c[0] < 0x1_0000_0000_0000_0000
    ensures Says(ds, c)
  {
    hide DigitsValue, Digits;
    forall k | 1 <= k < |c| ensures ds[k] == rest[k - 1] && c[k] == c[1..][k - 1] {}
  }

  lemma LinkEndIs(t: seq<byte>, i: nat, j: nat)
    requires i <= j <= |t| && (forall k :: i <= k < j ==> IsDigit(t[k])) && (j < |t| ==> !IsDigit(t[j]))
    ensures LinkEnd(t, i) == j
    decreases j - i
  {
    if i < j { LinkEndIs(t, i + 1, j); }
  }

  lemma LinksStep(t: seq<byte>, i: nat, j: nat, max: nat)
    requires i < j <= |t| && max > 0 && Digits(t[i..j]) && DigitsValue(t[i..j]) < 0x1_0000_0000_0000_0000
    requires j < |t| ==> t[j] == 0x20 && j + 1 < |t|
    ensures j == |t| ==> Links(t, i, max) == Some([DigitsValue(t[i..j])])
    ensures j < |t| && Links(t, j + 1, max - 1).Some? ==> Links(t, i, max) == Some([DigitsValue(t[i..j])] + Links(t, j + 1, max - 1).value)
  {
    hide DigitsValue, LinkEnd;
    forall k | i <= k < j ensures IsDigit(t[k]) { assert t[k] == t[i..j][k - i]; }
    LinkEndIs(t, i, j);
  }

  lemma {:induction false} SpacedLinks(pre: seq<byte>, ds: seq<seq<byte>>, max: nat, c: seq<nat>)
    requires Says(ds, c) && 0 < |c| <= max
    ensures Links(pre + Spaced(ds), |pre|, max) == Some(c)
    decreases |ds|
  {
    hide DigitsValue, LinkEnd, Links, Digits;
    var t, d := pre + Spaced(ds), ds[0];
    var i, j := |pre|, |pre| + |d|;
    assert t[i..j] == d;
    if |ds| > 1 {
      var next := pre + d + [0x20];
      assert t[j] == 0x20 && t == next + Spaced(ds[1..]);
      SpacedSome(ds[1..]);
      SpacedLinks(next, ds[1..], max - 1, c[1..]);
      assert c == [c[0]] + c[1..];
    } else {
      assert c == [c[0]];
    }
    LinksStep(t, i, j, max);
  }

  lemma SpacedSome(ds: seq<seq<byte>>)
    requires ds != [] && ds[0] != []
    ensures Spaced(ds) != []
  {}

  // ---- heads and scalars, as they are written --------------------------------------------------

  /** The shortest head of major type mt with argument n. */
  ghost predicate HeadTold(mt: nat, n: nat, h: seq<byte>)
    requires mt < 8
  {
    exists small, b :: HeadIs(mt, n, small, b, h)
  }

  predicate HeadIs(mt: nat, n: nat, small: nat, b: seq<byte>, h: seq<byte>)
    requires mt < 8
  {
    small < 24 && |b| in {0, 1, 2, 4, 8} && h == Wire(mt, small, b) && Argument(small, b) == n && Shortest(n, |b|)
  }

  lemma HeadWritten(mt: nat, n: nat)
    requires mt < 8 && n < TWO_64
    ensures HeadTold(mt, n, HeadBytes(mt, n))
  {
    hide ToBigEndian, BigEndian, Network;
    var w := ArgBytes(n) - 1;
    var b := ToBigEndian(n, w);
    if w > 0 {
      Powers();
      BigEndianRoundTrip(n, w);
      NetworkIs(b);
      assert HeadIs(mt, n, 0, b, HeadBytes(mt, n));
    } else {
      assert HeadIs(mt, n, n, [], HeadBytes(mt, n));
    }
  }

  /** The tag heads of c, outermost first. */
  ghost predicate TagsTold(c: seq<nat>, b: seq<byte>)
    decreases |c|
  {
    if c == [] then b == [] else exists h, rest :: b == h + rest && HeadTold(6, c[0], h) && TagsTold(c[1..], rest)
  }

  lemma {:induction false} TagsWritten(c: seq<nat>)
    requires forall k :: 0 <= k < |c| ==> c[k] < TWO_64
    ensures TagsTold(c, TagHeads(c))
    decreases |c|
  {
    hide HeadTold, HeadBytes;
    if c != [] {
      var rest := c[1..];
      HeadWritten(6, c[0]);
      TagsWritten(rest);
      TagHeadsFront(c);
      assert TagHeads(c) == HeadBytes(6, c[0]) + TagHeads(rest) && HeadTold(6, c[0], HeadBytes(6, c[0])) && TagsTold(rest, TagHeads(rest));
    }
  }

  lemma {:induction false} TagHeadsFront(c: seq<nat>)
    requires c != [] && forall k :: 0 <= k < |c| ==> c[k] < TWO_64
    ensures TagHeads(c) == HeadBytes(6, c[0]) + TagHeads(c[1..])
    decreases |c|
  {
    hide HeadBytes;
    var n := |c| - 1;
    if n > 0 {
      TagHeadsFront(c[..n]);
      assert c[..n][1..] == c[1..][..n - 1];
      assert HeadBytes(6, c[0]) + TagHeads(c[1..][..n - 1]) + HeadBytes(6, c[n]) ==
             HeadBytes(6, c[0]) + (TagHeads(c[1..][..n - 1]) + HeadBytes(6, c[n]));
    }
  }

  /** Numbers, booleans and null by their resolved tag; any other text is a word, a text string or a byte string. */
  ghost predicate ScalarTold(tagged: bool, id: nat, v: seq<byte>, b: seq<byte>) {
    if id == 1 || id == 2 then exists x :: IntegerTold(v, x, b)
    else if id == 3 then b == [if v != [] && v[0] in {0x74, 0x54, 0x79, 0x59, 0x6F, 0x4F} then 0xF5 else 0xF4]
    else if id == 4 then b == [0xF6]
    else if !tagged && exists n: byte :: WordOf(v, n) then exists n: byte :: WordOf(v, n) && b == SimpleWire(n)
    else exists h :: b == h + v && HeadTold(if Utf8.Valid(v) then 3 else 2, |v|, h)
  }

  /** A simple value below 24 is its first byte; another one follows it. */
  function SimpleWire(n: byte): seq<byte> {
    if n < 24 then [0xE0 + n] else [0xF8, n]
  }

  ghost predicate IntegerTold(v: seq<byte>, x: int, b: seq<byte>) {
    && (v == Numeral(x) || (x == 0 && v == [0x2D, 0x30]))
    && if x < 0 then HeadTold(1, -1 - x, b) else HeadTold(0, x, b)
  }

  /** Tags and what is behind them, for every scalar that has an encoding. */
  lemma ScalarWritten(n: Node, canonical: bool) returns (c: seq<nat>, tags: seq<byte>, b: seq<byte>)
    requires n.Scalar? && Encodable(n)
    ensures ItemBytes(n, canonical) == tags + b && Chain(n.tag) == Some(c) && TagsTold(c, tags)
    ensures ScalarTold(n.tag != [], n.tagId, n.value, b)
  {
    hide TagsTold, Chain, TagHeads, IntScan, SimpleOf, WordOf, HeadTold, HeadBytes, Utf8.Valid;
    c, tags, b := Chain(n.tag).value, Tags(n), ScalarBytes(n);
    TagsWritten(c);
    var v := n.value;
    if NumberTag(n.tagId) {
      IntWritten(v, IntScan(v).value);
    } else if n.tagId == TAG_BOOL {
      assert 't' as int == 0x74 && 'T' as int == 0x54 && 'y' as int == 0x79 && 'Y' as int == 0x59 && 'o' as int == 0x6F && 'O' as int == 0x4F;
    } else if n.tagId != TAG_NULL {
      TextWritten(n.tag != [], n.tagId, v);
    }
  }

  lemma IntWritten(v: seq<byte>, x: int)
    requires IntScan(v) == Some(x)
    ensures IntegerTold(v, x, IntBytes(x))
  {
    hide IntScan, HeadTold, HeadBytes, Decimal;
    IntScanExactly(v, x);
    if x < 0 { HeadWritten(1, -(x + 1)); } else { HeadWritten(0, x); }
  }

  lemma TextWritten(tagged: bool, id: nat, v: seq<byte>)
    requires |v| < TWO_64 && !(1 <= id <= 4)
    ensures ScalarTold(tagged, id, v, TextBytes(tagged, v))
  {
    hide SimpleOf, WordOf, HeadTold, HeadBytes, Utf8.Valid;
    WordExactly(v);
    if !tagged && SimpleOf(v).Some? {
      var n := SimpleOf(v).value;
      assert WordOf(v, n) && SimpleBytes(n) == SimpleWire(n);
    } else {
      var mt := if Utf8.Valid(v) then 3 else 2;
      HeadWritten(mt, |v|);
      assert StringItem(v) == HeadBytes(mt, |v|) + v;
    }
  }

  lemma WordExactly(v: seq<byte>)
    ensures SimpleOf(v).Some? ==> WordOf(v, SimpleOf(v).value)
    ensures (exists n :: WordOf(v, n)) ==> SimpleOf(v).Some?
  {
    hide SimpleOf, WordOf;
    if SimpleOf(v).Some? { SimpleOfExactly(v, SimpleOf(v).value); }
    if exists n :: WordOf(v, n) {
      var n :| WordOf(v, n);
      SimpleOfExactly(v, n);
    }
  }

  // ---- sort keys ----------------------------------------------------------------------

  /** What a pair is sorted by: its key's tags, and its number or its text, that of a container being empty. */
  lemma KeyWritten(n: Node) returns (c: seq<nat>, tags: seq<byte>, b: seq<byte>)
    requires KeyOk(n)
    ensures KeyBytes(n) == tags + b && Chain(n.tag) == Some(c) && TagsTold(c, tags)
    ensures if n.FloatNode? then b == FloatBytes(n.bits)
      else if n.Scalar? && (n.tagId == 1 || n.tagId == 2) then exists x :: IntegerTold(n.value, x, b)
      else ScalarTold(n.tag != [], 0, if n.Scalar? then n.value else [], b)
  {
    hide TagsTold, Chain, TagHeads, IntScan, ScalarTold, TextBytes, FloatBytes;
    c, tags, b := Chain(n.tag).value, Tags(n), KeyBody(n);
    TagsWritten(c);
    if n.Scalar? && NumberTag(n.tagId) {
      IntWritten(n.value, IntScan(n.value).value);
    } else if !n.FloatNode? {
      TextWritten(n.tag != [], 0, if n.Scalar? then n.value else []);
    }
  }
}
