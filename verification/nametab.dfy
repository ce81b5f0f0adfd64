/** The name table: open addressing, short names kept inside the slot, long ones in side arrays. */
module NameTab {
  import opened Wrappers
  import opened Bytes
  import OpenAddress

  type Name = seq<byte>

  // ---- words of names -----------------------------------------------------------------

  /** load_small: by the bits 4, 2 and 1 of the length, so eight bytes load nothing. */
  function LoadSmall(p: Name): (w: nat)
    requires |p| <= 8
  {
    var n := |p|;
    var (a, q) := if n / 4 % 2 == 1 then (LittleEndian(p[..4]), p[4..]) else (0, p);
    var (b, r) := if n / 2 % 2 == 1 then (a * 65536 + LittleEndian(q[..2]), q[2..]) else (a, q);
    if n % 2 == 1 then b * 256 + r[0] else b
  }

  /** The four lowest bytes, the first one lowest. */
  function Four(p: Name): nat
    requires |p| >= 4
  {
    p[0] as int + 0x100 * p[1] as int + 0x1_0000 * p[2] as int + 0x100_0000 * p[3] as int
  }

  lemma FourValue(p: seq<byte>)
    requires |p| == 4
    ensures LittleEndian(p) == Four(p)
  {
    assert p[1..][1..] == p[2..];
    PairValue(p[2..]);
    assert LittleEndian(p) == p[0] + 256 * LittleEndian(p[1..]);
    assert LittleEndian(p[1..]) == p[1] + 256 * LittleEndian(p[1..][1..]);
  }

  /** What is loaded, length by length. */
  lemma LoadedBytes(p: Name)
    requires |p| <= 8
    ensures var n, w := |p|, LoadSmall(p);
      && (n == 0 || n == 8 ==> w == 0)
      && (n == 1 ==> w == p[0] as int)
      && (n == 2 ==> w == p[0] as int + 0x100 * p[1] as int)
      && (n == 3 ==> w == 0x100 * (p[0] as int + 0x100 * p[1] as int) + p[2] as int)
      && (n == 4 ==> w == Four(p))
      && (n == 5 ==> w == 0x100 * Four(p) + p[4] as int)
      && (n == 6 ==> w == 0x1_0000 * Four(p) + (p[4] as int + 0x100 * p[5] as int))
      && (n == 7 ==> w == 0x100 * (0x1_0000 * Four(p) + (p[4] as int + 0x100 * p[5] as int)) + p[6] as int)
  {
    hide LittleEndian;
    var n := |p|;
    var q := if n / 4 % 2 == 1 then p[4..] else p;
    if n / 4 % 2 == 1 { FourValue(p[..4]); }
    if n / 2 % 2 == 1 { PairValue(q[..2]); }
  }

  /** The name of that length and word. */
  function Unload(w: nat, n: nat): (p: Name)
    requires n < 8
    ensures |p| == n
  {
    var (b, tail) := if n % 2 == 1 then (w / 256, [w % 256]) else (w, []);
    var (a, mid) := if n / 2 % 2 == 1 then (b / 65536, ToLittleEndian(b, 2)) else (b, []);
    (if n / 4 == 1 then ToLittleEndian(a, 4) else []) + mid + tail
  }

  lemma {:induction false} LittleEndianBack(p: seq<byte>)
    ensures ToLittleEndian(LittleEndian(p), |p|) == p
  {
    if p != [] {
      LittleEndianBack(p[1..]);
      var v := LittleEndian(p[1..]);
      FirstByte(v * 256 + p[0], |p| - 1);
      OneDigit(v, p[0]);
      assert LittleEndian(p) == v * 256 + p[0];
      hide LittleEndian, ToLittleEndian;
      assert p == [p[0]] + p[1..];
    }
  }

  lemma PairValue(p: seq<byte>)
    requires |p| == 2
    ensures LittleEndian(p) == p[0] as int + 256 * p[1] as int
  {
    assert p[1..][1..] == [];
    assert LittleEndian(p[1..]) == p[1] as int;
  }

  lemma PairBytes(v: nat)
    ensures ToLittleEndian(v, 2) == [v % 256, v / 256 % 256]
  {
    assert ToLittleEndian(v / 256, 1) == [v / 256 % 256] + ToLittleEndian(v / 256 / 256, 0);
  }

  lemma LowBytes(hi: nat, p: seq<byte>)
    requires |p| == 2
    ensures ToLittleEndian(hi * 65536 + LittleEndian(p), 2) == p && (hi * 65536 + LittleEndian(p)) / 65536 == hi
  {
    hide LittleEndian, ToLittleEndian;
    PairValue(p);
    PairBytes(hi * 65536 + LittleEndian(p));
    Digits(hi, p[0], p[1]);
  }

  lemma Digits(hi: nat, x: byte, y: byte)
    ensures var v := hi * 65536 + (x as int + 256 * y as int); v % 256 == x && v / 256 % 256 == y && v / 65536 == hi
  {
  }

  /** Below eight bytes the word and the length are the name. */
  lemma UnloadBack(p: Name)
    requires |p| < 8
    ensures Unload(LoadSmall(p), |p|) == p
  {
    var n := |p|;
    var (a, q) := if n / 4 % 2 == 1 then (LittleEndian(p[..4]), p[4..]) else (0, p);
    var (b, r) := if n / 2 % 2 == 1 then (a * 65536 + LittleEndian(q[..2]), q[2..]) else (a, q);
    if n / 4 == 1 { LittleEndianBack(p[..4]); }
    if n / 2 % 2 == 1 { LowBytes(a, q[..2]); }
    hide LittleEndian, ToLittleEndian;
    assert n % 2 == 1 ==> r == [r[0]];
    assert n / 2 % 2 == 1 ==> q == q[..2] + q[2..];
    assert n / 4 == 1 ==> p == p[..4] + p[4..];
    UnloadParts(n, a, b, q, r, p);
  }

  lemma UnloadParts(n: nat, a: nat, b: nat, q: Name, r: Name, p: Name)
    requires n == |p| < 8
    requires if n / 4 == 1 then a == LittleEndian(p[..4]) && q == p[4..] && ToLittleEndian(a, 4) == p[..4] else a == 0 && q == p
    requires if n / 2 % 2 == 1 then b == a * 65536 + LittleEndian(q[..2]) && r == q[2..] && ToLittleEndian(b, 2) == q[..2] && b / 65536 == a else b == a && r == q
    requires |r| == n % 2
    ensures Unload(LoadSmall(p), n) == p
  {
    hide LittleEndian, ToLittleEndian;
  }

  /** What the hash reads of a name. */
  datatype Words = Small(len: nat, w: nat) | Medium(len: nat, first: nat, w: nat) | Large(len: nat, first: nat, last: nat)

  function WordsOf(p: Name): Words {
    var n := |p|;
    if n <= 8 then Small(n, LoadSmall(p))
    else if n <= 16 then Medium(n, LittleEndian(p[..8]), LoadSmall(p[8..]))
    else Large(n, LittleEndian(p[..8]), LittleEndian(p[n - 8..]))
  }

  /** key_prefix. */
  function Prefix(p: Name): nat { if |p| >= 8 then LoadSmall(p[..8]) else LoadSmall(p) }

  /** The table cannot tell one eight-byte name from another. */
  function Folded(p: Name): Name { if |p| == 8 then EIGHT else p }

  const EIGHT: Name := [0, 0, 0, 0, 0, 0, 0, 0]

  lemma EightLoadsNothing(p: Name)
    ensures |p| == 8 ==> LoadSmall(p) == 0
    ensures |p| >= 8 ==> Prefix(p) == 0
  {
  }

  // ---- slots -----------------------------------------------------------------------------

  datatype Slot = Slot(prefix: nat, val: nat, klen1: nat)
  type Cells = seq<OpenAddress.Cell<Slot>>

  predicate Proper(e: Slot, keys: seq<Name>) {
    if e.klen1 > 9 then 1 <= e.val <= |keys| && |keys[e.val - 1]| + 1 == e.klen1 && e.prefix == 0
    else 1 <= e.klen1 && (e.klen1 == 9 ==> e.prefix == 0) && (e.klen1 < 9 ==> LoadSmall(Unload(e.prefix, e.klen1 - 1)) == e.prefix)
  }

  /** The name of an entry, eight-byte names folded. */
  function NameOf(e: Slot, keys: seq<Name>): Name
    requires Proper(e, keys)
  {
    if e.klen1 > 9 then keys[e.val - 1] else if e.klen1 == 9 then EIGHT else Unload(e.prefix, e.klen1 - 1)
  }

  function ValueOf(e: Slot, values: seq<nat>): nat
    requires e.klen1 > 9 ==> 1 <= e.val <= |values|
  {
    if e.klen1 > 9 then values[e.val - 1] else e.val
  }

  /** The hash of an entry's name: of the word itself for the names inside slots. */
  function SlotHash(hash: Words -> nat, e: Slot, keys: seq<Name>): nat {
    if e.klen1 > 9 && 1 <= e.val <= |keys| then hash(WordsOf(keys[e.val - 1])) else hash(Small(if e.klen1 > 0 then e.klen1 - 1 else 0, e.prefix))
  }

  function Home(hash: Words -> nat, keys: seq<Name>, n: nat): Slot -> nat
    requires n > 0
  {
    (e: Slot) => SlotHash(hash, e, keys) % n
  }

  /** The test of a probe. */
  function Hit(p: Name, keys: seq<Name>): Slot -> bool {
    (e: Slot) => e.klen1 == |p| + 1 && e.prefix == Prefix(p) && (e.klen1 <= 9 || (1 <= e.val <= |keys| && keys[e.val - 1] == p))
  }

  /** A probe stops on the entry of the folded name. */
  lemma HitIsName(p: Name, e: Slot, keys: seq<Name>)
    requires Proper(e, keys)
    ensures Hit(p, keys)(e) <==> NameOf(e, keys) == Folded(p)
  {
    EightLoadsNothing(p);
    if |p| < 8 { UnloadBack(p); }
    hide LoadSmall, Unload;
  }

  /** All entries of one name have one home. */
  lemma HitHome(hash: Words -> nat, p: Name, e: Slot, keys: seq<Name>)
    requires Proper(e, keys) && Hit(p, keys)(e)
    ensures SlotHash(hash, e, keys) == hash(WordsOf(p))
  {
    EightLoadsNothing(p);
    hide LoadSmall;
  }

  // ---- the words again after a rehash ---------------------------------------------------------

  /** nt_rehash takes the word's bytes, low first, for the name. */
  function Rebuilt(e: Slot): Name
    requires e.klen1 <= 9
  {
    ToLittleEndian(e.prefix, 8)[..if e.klen1 > 0 then e.klen1 - 1 else 0]
  }

  /** The entry goes to the home its name hashes to. */
  predicate Keeps(e: Slot) { e.klen1 <= 9 ==> LoadSmall(Rebuilt(e)) == e.prefix }

  /** The name with its word groups the other way round: the odd byte first, then the pair, then the four. */
  function Turned(p: Name): Name
    requires |p| < 8
  {
    var n := |p|;
    var (a, q) := if n / 4 == 1 then (p[..4], p[4..]) else ([], p);
    var (b, r) := if n / 2 % 2 == 1 then (q[..2], q[2..]) else ([], q);
    r + b + a
  }

  lemma {:induction false} LowPart(v: nat, n: nat, m: nat)
    requires n <= m
    ensures ToLittleEndian(v, m)[..n] == ToLittleEndian(v, n)
  {
    if n > 0 { LowPart(v / 256, n - 1, m - 1); }
  }

  lemma OddByte(b: nat, x: byte, m: nat)
    ensures ToLittleEndian(b * 256 + x, m + 1) == [x] + ToLittleEndian(b, m)
  {
    FirstByte(b * 256 + x, m);
    hide ToLittleEndian;
    OneDigit(b, x);
  }

  lemma FirstByte(v: nat, m: nat)
    ensures ToLittleEndian(v, m + 1) == [v % 256] + ToLittleEndian(v / 256, m)
  {
  }

  lemma OneDigit(b: nat, x: byte)
    ensures (b * 256 + x) % 256 == x && (b * 256 + x) / 256 == b
  {
  }

  lemma LowPair(a: nat, q: seq<byte>, m: nat)
    requires |q| == 2
    ensures ToLittleEndian(a * 65536 + LittleEndian(q), m + 2) == q + ToLittleEndian(a, m)
  {
    var x := a * 65536 + LittleEndian(q);
    LowBytes(a, q);
    assert ToLittleEndian(x, m + 2) == [x % 256] + ToLittleEndian(x / 256, m + 1);
    assert ToLittleEndian(x / 256, m + 1) == [x / 256 % 256] + ToLittleEndian(x / 256 / 256, m);
    assert ToLittleEndian(x, 2) == [x % 256, x / 256 % 256];
  }

  lemma FourBytes(a: nat, p: seq<byte>, n: nat)
    requires |p| == 4 && a == LittleEndian(p)
    ensures ToLittleEndian(a, n + 4)[..4] == p
  {
    LowPart(a, 4, n + 4);
    LittleEndianBack(p);
  }

  /** A rehash reads the name back turned. */
  lemma RebuiltIsTurned(p: Name, val: nat)
    requires |p| < 8
    ensures Rebuilt(Slot(LoadSmall(p), val, |p| + 1)) == Turned(p)
  {
    hide LittleEndian, ToLittleEndian, LoadSmall, Turned;
    var n := |p|;
    var (a, q) := if n / 4 % 2 == 1 then (LittleEndian(p[..4]), p[4..]) else (0, p);
    var (b, r) := if n / 2 % 2 == 1 then (a * 65536 + LittleEndian(q[..2]), q[2..]) else (a, q);
    var m := 8 - n % 2;
    var k: nat := if n / 2 % 2 == 1 then m - 2 else m;
    FourPart(a, p, k);
    if n / 2 % 2 == 1 { LowPair(a, q[..2], k); }
    if n % 2 == 1 { OddByte(b, r[0], 7); }
    TurnedParts(n, m, k, a, b, q, r, p);
  }

  lemma FourPart(a: nat, p: Name, k: nat)
    requires |p| < 8 && k >= 5 && a == (if |p| / 4 == 1 then LittleEndian(p[..4]) else 0)
    ensures |p| / 4 == 1 ==> ToLittleEndian(a, k)[..4] == p[..4]
  {
    if |p| / 4 == 1 { FourBytes(a, p[..4], k - 4); }
  }

  lemma TurnedParts(n: nat, m: nat, k: nat, a: nat, b: nat, q: Name, r: Name, p: Name)
    requires n == |p| < 8 && |r| == n % 2 && m == 8 - n % 2 && k == (if n / 2 % 2 == 1 then m - 2 else m)
    requires if n / 4 == 1 then a == LittleEndian(p[..4]) && q == p[4..] && ToLittleEndian(a, k)[..4] == p[..4] else a == 0 && q == p
    requires if n / 2 % 2 == 1 then b == a * 65536 + LittleEndian(q[..2]) && r == q[2..] && ToLittleEndian(b, m) == q[..2] + ToLittleEndian(a, k)
             else b == a && r == q
    requires n % 2 == 1 ==> ToLittleEndian(b * 256 + r[0], 8) == [r[0]] + ToLittleEndian(b, m)
    ensures ToLittleEndian(LoadSmall(p), 8)[..n] == Turned(p)
  {
    hide LittleEndian, ToLittleEndian;
  }

  /** The word of an inline entry is the word of the name it rebuilds exactly when that name reads the same turned. */
  lemma KeepsExactly(p: Name, val: nat)
    requires |p| <= 8
    ensures Keeps(Slot(Prefix(p), val, |p| + 1)) <==> |p| == 8 || Turned(p) == p
  {
    EightLoadsNothing(p);
    if |p| < 8 {
      RebuiltIsTurned(p, val);
      UnloadBack(p);
      UnloadBack(Turned(p));
    } else {
      ZeroBytes(8);
    }
    hide LoadSmall, Unload, ToLittleEndian;
    EightLoadsNothing(ToLittleEndian(0, 8));
  }

  lemma {:induction false} ZeroBytes(n: nat)
    ensures ToLittleEndian(0, n) == seq(n, i => 0)
  {
    if n > 0 { ZeroBytes(n - 1); }
  }

  /** Names of one, two, four and eight bytes and more are safe; so are no others but those that repeat in step. */
  lemma SafeLengths(p: Name)
    requires |p| < 8
    ensures |p| in {0, 1, 2, 4} ==> Turned(p) == p
    ensures |p| == 3 ==> (Turned(p) == p <==> p[0] == p[1] == p[2])
    ensures |p| == 5 ==> (Turned(p) == p <==> p[0] == p[1] == p[2] == p[3] == p[4])
    ensures |p| == 6 ==> (Turned(p) == p <==> p[0] == p[2] == p[4] && p[1] == p[3] == p[5])
    ensures |p| == 7 ==> (Turned(p) == p <==> p[0] == p[3] == p[6] && p[1] == p[4] && p[2] == p[5])
  {
    if |p| == 3 { assert Turned(p) == [p[2], p[0], p[1]]; }
    if |p| == 5 { assert Turned(p) == [p[4], p[0], p[1], p[2], p[3]]; }
    if |p| == 6 { assert Turned(p) == [p[4], p[5], p[0], p[1], p[2], p[3]]; }
    if |p| == 7 { assert Turned(p) == [p[6], p[4], p[5], p[0], p[1], p[2], p[3]]; }
  }

  // ---- the table as a map ------------------------------------------------------------------

  predicate EntryOk(e: Slot, keys: seq<Name>, values: seq<nat>, m: map<Name, nat>) {
    && |values| == |keys| && Proper(e, keys)
    && NameOf(e, keys) in m && m[NameOf(e, keys)] == ValueOf(e, values)
  }

  predicate Holds(c: Cells, keys: seq<Name>, s: nat, n: Name) {
    s < |c| && c[s].Held? && Proper(c[s].e, keys) && NameOf(c[s].e, keys) == n
  }

  /** The slots hold every name of m once, with its value, and nothing else. */
  ghost predicate Represents(c: Cells, keys: seq<Name>, values: seq<nat>, m: map<Name, nat>) {
    && |keys| == |values|
    && (forall s :: 0 <= s < |c| && c[s].Held? ==> EntryOk(c[s].e, keys, values, m))
    && (forall n :: n in m ==> exists s :: Holds(c, keys, s, n))
    && (forall s, t :: 0 <= s < t < |c| && c[s].Held? && c[t].Held? ==> NameOf(c[s].e, keys) != NameOf(c[t].e, keys))
  }

  /** Some map is in the slots. */
  ghost predicate IsMap(c: Cells, keys: seq<Name>, values: seq<nat>) { exists m :: Represents(c, keys, values, m) }

  lemma EntryAt(c: Cells, keys: seq<Name>, values: seq<nat>, m: map<Name, nat>, s: nat)
    requires Represents(c, keys, values, m) && s < |c| && c[s].Held?
    ensures EntryOk(c[s].e, keys, values, m)
  {
  }

  /** A probe for p ends on p's entry, or on an empty slot when p is not in the map. */
  lemma ProbeMeans(c: Cells, keys: seq<Name>, values: seq<nat>, m: map<Name, nat>, hash: Words -> nat, lay: OpenAddress.Layout<Slot>,
                   p: Name, d: nat, s: nat)
    requires Represents(c, keys, values, m) && |c| > 0 && OpenAddress.Laid(c, Home(hash, keys, |c|), lay)
    requires d == OpenAddress.Probe(c, hash(WordsOf(p)) % |c|, Hit(p, keys), 0) < |c| && s == OpenAddress.Walk(hash(WordsOf(p)) % |c|, d, |c|)
    ensures c[s].Held? <==> Folded(p) in m
    ensures c[s].Held? ==> Holds(c, keys, s, Folded(p))
  {
    var home, hit, i := Home(hash, keys, |c|), Hit(p, keys), hash(WordsOf(p)) % |c|;
    hide OpenAddress.Laid, OpenAddress.Walk, OpenAddress.Probe, OpenAddress.FirstMatch, Represents, WordsOf, Proper;
    forall k | 0 <= k < |lay.log| && hit(lay.log[k]) ensures home(lay.log[k]) == i {
      var t := OpenAddress.SlotOf(c, home, lay, k);
      EntryAt(c, keys, values, m, t);
      HitHome(hash, p, lay.log[k], keys);
    }
    OpenAddress.LookupIsFirst(c, home, lay, i, hit);
    if c[s].Held? {
      EntryAt(c, keys, values, m, s);
      HitIsName(p, c[s].e, keys);
    } else if Folded(p) in m {
      var t := HolderOf(c, keys, values, m, Folded(p));
      HitIsName(p, c[t].e, keys);
      var k := OpenAddress.LoggedAt(c, home, lay, t);
    }
  }

  lemma HolderOf(c: Cells, keys: seq<Name>, values: seq<nat>, m: map<Name, nat>, n: Name) returns (s: nat)
    requires Represents(c, keys, values, m) && n in m
    ensures Holds(c, keys, s, n)
  {
    s :| Holds(c, keys, s, n);
  }

  /** In any table a probe that stops on an entry stops on the name's. */
  lemma HitHolds(c: Cells, keys: seq<Name>, values: seq<nat>, m: map<Name, nat>, p: Name, s: nat)
    requires Represents(c, keys, values, m) && s < |c| && c[s].Held? && Hit(p, keys)(c[s].e)
    ensures Holds(c, keys, s, Folded(p)) && Folded(p) in m
  {
    hide Represents, Proper;
    EntryAt(c, keys, values, m, s);
    HitIsName(p, c[s].e, keys);
  }

  /** An inline value rewritten. */
  lemma RewriteInline(c: Cells, keys: seq<Name>, values: seq<nat>, m: map<Name, nat>, s: nat, n: Name, v: nat)
    requires Represents(c, keys, values, m) && Holds(c, keys, s, n) && c[s].e.klen1 <= 9
    ensures Represents(c[s := OpenAddress.Held(c[s].e.(val := v))], keys, values, m[n := v])
  {
    var c1, m1 := c[s := OpenAddress.Held(c[s].e.(val := v))], m[n := v];
    hide Unload, LoadSmall;
    assert Holds(c1, keys, s, n);
    forall t | 0 <= t < |c1| && c1[t].Held? ensures EntryOk(c1[t].e, keys, values, m1) {
      if t != s { EntryAt(c, keys, values, m, t); }
    }
    forall k | k in m1 ensures exists t :: Holds(c1, keys, t, k) {
      if k != n {
        var t := HolderOf(c, keys, values, m, k);
        assert Holds(c1, keys, t, k);
      }
    }
  }

  /** A value in the side array rewritten. */
  lemma RewriteOutside(c: Cells, keys: seq<Name>, values: seq<nat>, m: map<Name, nat>, s: nat, n: Name, v: nat)
    requires Represents(c, keys, values, m) && Holds(c, keys, s, n) && c[s].e.klen1 > 9
    ensures c[s].e.val - 1 < |values| && Represents(c, keys, values[c[s].e.val - 1 := v], m[n := v])
  {
    var values1, m1 := values[c[s].e.val - 1 := v], m[n := v];
    hide Unload, LoadSmall;
    forall t | 0 <= t < |c| && c[t].Held? ensures EntryOk(c[t].e, keys, values1, m1) {
      EntryAt(c, keys, values, m, t);
      if t != s { assert NameOf(c[t].e, keys) != n; }
    }
    forall k | k in m1 ensures exists t :: Holds(c, keys, t, k) {
      if k == n { assert Holds(c, keys, s, n); } else { var t := HolderOf(c, keys, values, m, k); }
    }
  }

  /** A new entry in an empty slot. */
  lemma InsertEntry(c: Cells, keys: seq<Name>, values: seq<nat>, m: map<Name, nat>, s: nat, e: Slot, n: Name, v: nat)
    requires Represents(c, keys, values, m) && s < |c| && c[s].Empty? && n !in m
    requires Proper(e, keys) && NameOf(e, keys) == n && ValueOf(e, values) == v
    ensures Represents(c[s := OpenAddress.Held(e)], keys, values, m[n := v])
  {
    var c1, m1 := c[s := OpenAddress.Held(e)], m[n := v];
    hide Unload, LoadSmall;
    forall t | 0 <= t < |c1| && c1[t].Held? ensures EntryOk(c1[t].e, keys, values, m1) {
      if t != s { EntryAt(c, keys, values, m, t); }
    }
    forall k | k in m1 ensures exists t :: Holds(c1, keys, t, k) {
      if k == n {
        assert Holds(c1, keys, s, n);
      } else {
        var t := HolderOf(c, keys, values, m, k);
        assert Holds(c1, keys, t, k);
      }
    }
    forall a, b | 0 <= a < b < |c1| && c1[a].Held? && c1[b].Held? ensures NameOf(c1[a].e, keys) != NameOf(c1[b].e, keys) {
      if a == s { EntryAt(c, keys, values, m, b); }
      if b == s { EntryAt(c, keys, values, m, a); }
    }
  }

  /** Side arrays only grow: what was there reads the same. */
  lemma MoreKeys(c: Cells, keys: seq<Name>, values: seq<nat>, m: map<Name, nat>, key: Name, v: nat)
    requires Represents(c, keys, values, m)
    ensures Represents(c, keys + [key], values + [v], m)
  {
    hide Unload, LoadSmall;
    var keys1, values1 := keys + [key], values + [v];
    forall t | 0 <= t < |c| && c[t].Held? ensures EntryOk(c[t].e, keys1, values1, m) && NameOf(c[t].e, keys1) == NameOf(c[t].e, keys) {
      EntryAt(c, keys, values, m, t);
    }
    forall k | k in m ensures exists t :: Holds(c, keys1, t, k) {
      var t := HolderOf(c, keys, values, m, k);
      assert Holds(c, keys1, t, k);
    }
  }

  // ---- the table ---------------------------------------------------------------------------

  const MIN_CAP: nat := 64

  /** The first i slots hold a name of m. */
  predicate HeldBelow(c: Cells, keys: seq<Name>, i: nat, n: Name) { exists j :: 0 <= j < i && Holds(c, keys, j, n) }

  lemma HeldBelowStep(c: Cells, keys: seq<Name>, i: nat, n: Name)
    ensures HeldBelow(c, keys, i + 1, n) <==> HeldBelow(c, keys, i, n) || Holds(c, keys, i, n)
  {
    hide Holds;
    if HeldBelow(c, keys, i + 1, n) { var j :| 0 <= j < i + 1 && Holds(c, keys, j, n); }
    if HeldBelow(c, keys, i, n) { var j :| 0 <= j < i && Holds(c, keys, j, n); assert 0 <= j < i + 1; }
    if Holds(c, keys, i, n) { assert 0 <= i < i + 1; }
  }

  /** Each name has one slot. */
  lemma OnlyHolder(c: Cells, keys: seq<Name>, values: seq<nat>, m: map<Name, nat>, i: nat, n: Name)
    requires Represents(c, keys, values, m) && Holds(c, keys, i, n)
    ensures !HeldBelow(c, keys, i, n) && n in m && EntryOk(c[i].e, keys, values, m) && NameOf(c[i].e, keys) == n
  {
    hide Unload, LoadSmall;
    EntryAt(c, keys, values, m, i);
  }

  lemma HoldsOne(c: Cells, keys: seq<Name>, i: nat, n: Name)
    requires Holds(c, keys, i, n)
    ensures forall k :: Holds(c, keys, i, k) <==> k == n
  {
    hide NameOf;
  }

  lemma HoldsNone(c: Cells, keys: seq<Name>, i: nat)
    requires i < |c| && c[i].Empty?
    ensures forall k :: !Holds(c, keys, i, k)
  {
  }

  lemma SidesMatch(c: Cells, keys: seq<Name>, values: seq<nat>, m: map<Name, nat>)
    requires Represents(c, keys, values, m)
    ensures |keys| == |values|
  {
  }

  class NameTable {
    const hash: Words -> nat
    var slots: array<OpenAddress.Cell<Slot>>
    var keys: seq<Name>
    var values: seq<nat>
    var count: nat
    ghost var lay: OpenAddress.Layout<Slot>
    ghost var homes: Slot -> nat
    ghost var names: map<Name, nat>

    /** The slots hold the names, each laid from some home. */
    ghost predicate Sound()
      reads this, slots
    {
      && slots.Length >= MIN_CAP && |lay.log| == count && count * 100 <= slots.Length * 70
      && OpenAddress.Laid(slots[..], homes, lay)
      && Represents(slots[..], keys, values, names)
    }

    /** And each from the home its name hashes to. */
    ghost predicate Valid()
      reads this, slots
    {
      Sound() && OpenAddress.Laid(slots[..], Home(hash, keys, slots.Length), lay)
    }

    /** What a probe for the name answers. */
    ghost function Answer(p: Name): Option<nat>
      requires Sound()
      reads this, slots
    {
      AllEntries(slots[..], keys, values, names);
      var c := OpenAddress.Found(slots[..], hash(WordsOf(p)) % slots.Length, Hit(p, keys));
      if c.Held? && (c.e.klen1 > 9 ==> 1 <= c.e.val <= |values|) then Some(ValueOf(c.e, values)) else None
    }

    /** yep_nametab_init. */
    constructor (hash: Words -> nat)
      ensures Valid() && names == map[] && fresh(slots) && this.hash == hash
    {
      this.hash, keys, values, count, names := hash, [], [], 0, map[];
      var t := new OpenAddress.Cell<Slot>[MIN_CAP](i => OpenAddress.Empty);
      slots := t;
      lay := OpenAddress.Layout([], [], []);
      homes := Home(hash, [], MIN_CAP);
      OpenAddress.ClearIsLaid<Slot>(MIN_CAP, Home(hash, [], MIN_CAP));
      assert t[..] == OpenAddress.Clear(MIN_CAP);
    }

    /** The slot a probe for the name ends on. */
    method Probe(p: Name) returns (s: nat)
      requires Sound()
      ensures s < slots.Length && slots[s] == OpenAddress.Found(slots[..], hash(WordsOf(p)) % slots.Length, Hit(p, keys))
      ensures slots[s].Held? ==> Holds(slots[..], keys, s, Folded(p)) && Folded(p) in names
      ensures Valid() ==> (slots[s].Held? <==> Folded(p) in names)
    {
      hide OpenAddress.Laid, Represents, WordsOf, Proper;
      var n, i := slots.Length, hash(WordsOf(p)) % slots.Length;
      ghost var hit := Hit(p, keys);
      OpenAddress.ProbeEnds(slots[..], homes, lay, i, hit);
      ghost var stop := OpenAddress.Probe(slots[..], i, hit, 0);
      ghost var d := 0;
      s := i;
      while slots[s].Held? && !(slots[s].e.klen1 == |p| + 1 && slots[s].e.prefix == Prefix(p)
                                && (slots[s].e.klen1 <= 9 || (1 <= slots[s].e.val <= |keys| && keys[slots[s].e.val - 1] == p)))
        invariant d <= stop && s == OpenAddress.Walk(i, d, n)
        decreases stop - d
      {
        assert slots[..][OpenAddress.Walk(i, d, n)] == slots[s];
        s := OpenAddress.Next(s, n);
        d := d + 1;
      }
      assert slots[..][OpenAddress.Walk(i, d, n)] == slots[s];
      if slots[s].Held? { HitHolds(slots[..], keys, values, names, p, s); }
      if Valid() { ProbeMeans(slots[..], keys, values, names, hash, lay, p, d, s); }
    }

    /** yep_nametab_get: the value last set for the name. */
    method Get(p: Name) returns (r: Option<nat>)
      requires Sound()
      ensures r == Answer(p)
      ensures Valid() ==> r == if Folded(p) in names then Some(names[Folded(p)]) else None
    {
      hide OpenAddress.Laid, Represents, Proper, NameOf, OpenAddress.Found;
      var s := Probe(p);
      if slots[s].Empty? {
        return None;
      }
      HeldProper(slots[..], keys, values, names, s);
      if Valid() { HeldValue(slots[..], keys, values, names, s, Folded(p)); }
      var e := slots[s].e;
      r := Some(if e.klen1 <= 9 then e.val else values[e.val - 1]);
    }

    /** The first empty slot from home h. */
    method Vacant(t: array<OpenAddress.Cell<Slot>>, h: nat, ghost home: Slot -> nat, ghost on: OpenAddress.Layout<Slot>)
      returns (s: nat, ghost d: nat)
      requires t.Length > |on.log| && OpenAddress.Laid(t[..], home, on)
      ensures d < t.Length && s == OpenAddress.Walk(h % t.Length, d, t.Length) && t[s].Empty?
      ensures forall j :: 0 <= j < d ==> t[..][OpenAddress.Walk(h % t.Length, j, t.Length)].Held?
    {
      hide OpenAddress.Laid;
      var n, i := t.Length, h % t.Length;
      OpenAddress.ProbeEnds(t[..], home, on, i, e => false);
      ghost var stop := OpenAddress.Probe(t[..], i, e => false, 0);
      s, d := i, 0;
      while t[s].Held?
        invariant d <= stop && s == OpenAddress.Walk(i, d, n)
        decreases stop - d
      {
        assert t[..][OpenAddress.Walk(i, d, n)] == t[s];
        s := OpenAddress.Next(s, n);
        d := d + 1;
      }
      assert t[..][OpenAddress.Walk(i, d, n)] == t[s];
    }

    /** nt_rehash: every entry into a larger table, at the home of the name it rebuilds. */
    method Rehash(cap: nat)
      requires Sound() && cap >= slots.Length
      modifies this
      ensures Sound() && names == old(names) && keys == old(keys) && values == old(values) && count == old(count)
      ensures fresh(slots) && slots.Length == cap && homes == RebuiltHome(hash, keys, cap)
      ensures SafeNames(names) ==> Valid()
    {
      hide OpenAddress.Laid, Represents, OpenAddress.HeldOf, RebuiltHash, Proper, NameOf, HeldBelow, Holds, SafeNames;
      var t := new OpenAddress.Cell<Slot>[cap](i => OpenAddress.Empty);
      ghost var home := RebuiltHome(hash, keys, cap);
      ghost var was, next, done: map<Name, nat> := slots[..], OpenAddress.Layout([], [], []), map[];
      assert t[..] == OpenAddress.Clear(cap);
      OpenAddress.ClearIsLaid<Slot>(cap, home);
      OpenAddress.HeldIsLog(was, homes, lay);
      SidesMatch(was, keys, values, names);
      NothingRepresented(t[..], keys, values, was);
      var i := 0;
      while i < slots.Length
        invariant slots == old(slots) && lay == old(lay) && count == old(count) && keys == old(keys) && values == old(values) && names == old(names)
        invariant homes == old(homes)
        invariant slots[..] == was && i <= slots.Length && t.Length == cap && fresh(t)
        invariant OpenAddress.Laid(t[..], home, next) && next.log == OpenAddress.HeldOf(was, i)
        invariant Represents(t[..], keys, values, done)
        invariant forall n :: n in done <==> HeldBelow(was, keys, i, n)
        invariant forall n :: n in done ==> n in names && done[n] == names[n]
      {
        OpenAddress.HeldGrows(was, i, |was|);
        HeldNext(was, i);
        forall n ensures HeldBelow(was, keys, i + 1, n) <==> HeldBelow(was, keys, i, n) || Holds(was, keys, i, n) {
          HeldBelowStep(was, keys, i, n);
        }
        if slots[i].Held? {
          var e := slots[i].e;
          ghost var n := EntryName(was, keys, values, names, i);
          OnlyHolder(was, keys, values, names, i, n);
          HoldsOne(was, keys, i, n);
          ProperVal(was, keys, values, names, i);
          var h := RebuiltHash(hash, e, keys);
          var s; ghost var d;
          s, d := Vacant(t, h, home, next);
          OpenAddress.LayOne(t[..], home, next, e, d);
          InsertEntry(t[..], keys, values, done, s, e, n, names[n]);
          next := OpenAddress.Extend(next, e, s, d);
          ghost var before := t[..];
          t[s] := OpenAddress.Held(e);
          assert t[..] == before[s := OpenAddress.Held(e)];
          done := done[n := names[n]];
        } else {
          HoldsNone(was, keys, i);
        }
        i := i + 1;
      }
      AllRepresented(was, keys, values, names, done);
      slots, lay, homes := t, next, home;
      if SafeNames(names) { SafeHomes(slots[..], keys, values, names, hash, lay); }
    }

    /**
     * yep_nametab_set: the last value wins; eight-byte names are all one name. A name that the table holds and does not
     * find, after a rehash, gets a second entry, and the slots are no map any more.
     */
    method Set(p: Name, value: nat)
      requires Sound()
      modifies this, slots
      ensures if old(Answer(p)).Some? || Folded(p) !in old(names) then Sound() && names == old(names)[Folded(p) := value]
              else !IsMap(slots[..], keys, values)
      ensures old(Valid()) && (Folded(p) in old(names) || (old(count) + 1) * 100 <= old(slots.Length) * 70 || SafeNames(old(names))) ==> Valid()
    {
      hide OpenAddress.Laid, Represents, Proper, NameOf, Holds;
      var s := Probe(p);
      if slots[s].Held? {
        HeldProper(slots[..], keys, values, names, s);
        Overwrite(p, s, value);
        return;
      }
      if (count + 1) * 100 > slots.Length * 70 {
        Rehash(slots.Length * 2);
      }
      Insert(p, value);
    }

    method Overwrite(p: Name, s: nat, value: nat)
      requires Sound() && s < slots.Length && slots[s].Held? && Holds(slots[..], keys, s, Folded(p))
      modifies this, slots
      ensures Sound() && names == old(names)[Folded(p) := value] && (old(Valid()) ==> Valid())
    {
      hide OpenAddress.Laid, Represents, NameOf, Proper;
      var e := slots[s].e;
      HeldValue(slots[..], keys, values, names, s, Folded(p));
      names := names[Folded(p) := value];
      if e.klen1 <= 9 {
        RewriteInline(slots[..], keys, values, old(names), s, Folded(p), value);
        var now := e.(val := value);
        ghost var home := Home(hash, keys, slots.Length);
        ghost var k := OpenAddress.LoggedAt(slots[..], homes, lay, s);
        ghost var moved := AsBefore(homes, e, now);
        MovedHomes(slots[..], keys, values, old(names), homes, lay, s, now);
        OpenAddress.Rewrite(slots[..], moved, lay, k, now);
        if old(Valid()) { OpenAddress.Rewrite(slots[..], home, lay, k, now); }
        lay := lay.(log := lay.log[k := now]);
        slots[s] := OpenAddress.Held(now);
        homes := moved;
        assert slots[..] == old(slots[..])[s := OpenAddress.Held(now)];
      } else {
        RewriteOutside(slots[..], keys, values, old(names), s, Folded(p), value);
        values := values[e.val - 1 := value];
      }
    }

    method Insert(p: Name, value: nat)
      requires Sound() && (count + 1) * 100 <= slots.Length * 70
      modifies this, slots
      ensures if Folded(p) !in old(names) then Sound() && names == old(names)[Folded(p) := value]
              else !IsMap(slots[..], keys, values)
      ensures old(Valid()) && Folded(p) !in old(names) ==> Valid()
    {
      hide OpenAddress.Laid, Represents, WordsOf, LoadSmall, Unload, Proper, NameOf;
      var h := hash(WordsOf(p));
      var s; ghost var d;
      s, d := Vacant(slots, h, homes, lay);
      SidesMatch(slots[..], keys, values, names);
      var e := Slot(Prefix(p), value, |p| + 1);
      if |p| + 1 > 9 {
        MoreKeys(slots[..], keys, values, names, p, value);
        if Valid() { MoreHomes(slots[..], keys, values, names, p, hash, lay); }
        keys, values := keys + [p], values + [value];
        e := Slot(Prefix(p), |keys|, |p| + 1);
      }
      NewEntry(p, e, keys, values, hash, value);
      ghost var was := slots[..];
      Seated(was, keys, values, names, hash, homes, lay, e, p, value, d);
      homes := Also(homes, e, h % slots.Length);
      lay := OpenAddress.Extend(lay, e, s, d);
      slots[s] := OpenAddress.Held(e);
      assert slots[..] == was[s := OpenAddress.Held(e)];
      names := names[Folded(p) := value];
      count := count + 1;
    }

    /** yep_nametab_reserve: room for n names without a further rehash. */
    method Reserve(n: nat)
      requires Sound()
      modifies this
      ensures Sound() && names == old(names) && n * 100 <= slots.Length * 70
      ensures old(Valid()) && (SafeNames(names) || n * 100 <= old(slots.Length) * 70) ==> Valid()
      ensures n * 100 > old(slots.Length) * 70 ==> homes == RebuiltHome(hash, keys, slots.Length) && keys == old(keys) && count == old(count)
    {
      hide OpenAddress.Laid, Represents;
      if n * 100 <= slots.Length * 70 {
        return;
      }
      var need := (n * 100 + 69) / 70;
      var cap := MIN_CAP;
      while cap < need
        invariant cap >= MIN_CAP
        decreases need - cap
      {
        cap := cap * 2;
      }
      Rehash(cap);
    }

    /** yep_nametab_clear. */
    method Clear()
      requires Sound()
      modifies this, slots
      ensures Valid() && names == map[]
    {
      hide OpenAddress.Laid, Represents;
      SidesMatch(slots[..], keys, values, names);
      var i := 0;
      while i < slots.Length
        invariant slots == old(slots) && keys == old(keys) && values == old(values)
        invariant i <= slots.Length && forall s :: 0 <= s < i ==> slots[s].Empty?
      {
        slots[i] := OpenAddress.Empty;
        i := i + 1;
      }
      assert slots[..] == OpenAddress.Clear(slots.Length);
      keys, values, count, names := [], [], 0, map[];
      lay := OpenAddress.Layout([], [], []);
      homes := Home(hash, [], slots.Length);
      OpenAddress.ClearIsLaid<Slot>(slots.Length, Home(hash, [], slots.Length));
      NothingRepresented(slots[..], [], [], []);
    }
  }

  /** The homes with one more entry's. */
  function Also(homes: Slot -> nat, e: Slot, h: nat): Slot -> nat { x => if x == e then h else homes(x) }

  /** The homes with one entry where another was. */
  function AsBefore(homes: Slot -> nat, e: Slot, now: Slot): Slot -> nat { Also(homes, now, homes(e)) }

  /** A rewritten entry equals no other one. */
  lemma MovedHomes(c: Cells, keys: seq<Name>, values: seq<nat>, m: map<Name, nat>, homes: Slot -> nat, lay: OpenAddress.Layout<Slot>, s: nat,
                   now: Slot)
    requires Represents(c, keys, values, m) && OpenAddress.Laid(c, homes, lay)
    requires s < |c| && c[s].Held? && c[s].e.klen1 <= 9 && now == c[s].e.(val := now.val)
    ensures OpenAddress.Laid(c, AsBefore(homes, c[s].e, now), lay)
  {
    hide OpenAddress.Laid;
    var moved := AsBefore(homes, c[s].e, now);
    forall k | 0 <= k < |lay.log| ensures moved(lay.log[k]) == homes(lay.log[k]) {
      var t := OpenAddress.SlotOf(c, homes, lay, k);
      if lay.log[k] == now && t != s { SameWord(c, keys, values, m, s, t); }
    }
    OpenAddress.SameHomes(c, homes, moved, lay);
  }

  /** Inline entries of one word and length are one. */
  lemma SameWord(c: Cells, keys: seq<Name>, values: seq<nat>, m: map<Name, nat>, s: nat, t: nat)
    requires Represents(c, keys, values, m) && s < |c| && t < |c| && c[s].Held? && c[t].Held?
    requires c[s].e.klen1 <= 9 && c[s].e == c[t].e.(val := c[s].e.val)
    ensures s == t
  {
    hide Unload, LoadSmall;
    EntryAt(c, keys, values, m, s);
    EntryAt(c, keys, values, m, t);
  }

  /** The entry of a new name equals none that is there. */
  lemma NewHomes(c: Cells, keys: seq<Name>, values: seq<nat>, m: map<Name, nat>, homes: Slot -> nat, lay: OpenAddress.Layout<Slot>, e: Slot,
                 n: Name, h: nat)
    requires Represents(c, keys, values, m) && OpenAddress.Laid(c, homes, lay) && n !in m && Proper(e, keys) && NameOf(e, keys) == n
    ensures OpenAddress.Laid(c, Also(homes, e, h), lay)
  {
    hide OpenAddress.Laid, Represents, Unload, LoadSmall;
    var moved := Also(homes, e, h);
    forall k | 0 <= k < |lay.log| ensures moved(lay.log[k]) == homes(lay.log[k]) {
      var t := OpenAddress.SlotOf(c, homes, lay, k);
      EntryAt(c, keys, values, m, t);
    }
    OpenAddress.SameHomes(c, homes, moved, lay);
  }

  lemma NotTwice(c: Cells, keys: seq<Name>, values: seq<nat>, m: map<Name, nat>, s: nat, t: nat, n: Name)
    requires Holds(c, keys, s, n) && Holds(c, keys, t, n) && s != t
    ensures !Represents(c, keys, values, m)
  {
  }

  /** Two entries of one name: no map is in the slots. */
  lemma SecondEntry(c: Cells, keys: seq<Name>, values: seq<nat>, m: map<Name, nat>, s: nat, e: Slot, n: Name)
    requires Represents(c, keys, values, m) && s < |c| && c[s].Empty? && n in m && Proper(e, keys) && NameOf(e, keys) == n
    ensures !IsMap(c[s := OpenAddress.Held(e)], keys, values)
  {
    hide Represents, Unload, LoadSmall;
    var c1 := c[s := OpenAddress.Held(e)];
    var t := HolderOf(c, keys, values, m, n);
    assert Holds(c1, keys, s, n) && Holds(c1, keys, t, n);
    if IsMap(c1, keys, values) {
      var m1 :| Represents(c1, keys, values, m1);
      NotTwice(c1, keys, values, m1, s, t, n);
    }
  }

  /** A name's entry d slots behind its home: a new name joins the map, any other is there twice. */
  lemma Seated(c: Cells, keys: seq<Name>, values: seq<nat>, m: map<Name, nat>, hash: Words -> nat, homes: Slot -> nat,
               lay: OpenAddress.Layout<Slot>, e: Slot, p: Name, value: nat, d: nat)
    requires Represents(c, keys, values, m) && |c| > 0 && OpenAddress.Laid(c, homes, lay) && d < |c|
    requires Proper(e, keys) && NameOf(e, keys) == Folded(p) && SlotHash(hash, e, keys) == hash(WordsOf(p))
    requires |keys| == |values| && ValueOf(e, values) == value
    requires var h := hash(WordsOf(p)) % |c|;
      && (forall j :: 0 <= j < d ==> c[OpenAddress.Walk(h, j, |c|)].Held?) && c[OpenAddress.Walk(h, d, |c|)].Empty?
    ensures var h := hash(WordsOf(p)) % |c|;
      var s := OpenAddress.Walk(h, d, |c|);
      var after, more := c[s := OpenAddress.Held(e)], OpenAddress.Extend(lay, e, s, d);
      && (if Folded(p) in m then !IsMap(after, keys, values)
          else Represents(after, keys, values, m[Folded(p) := value]) && OpenAddress.Laid(after, Also(homes, e, h), more))
      && (OpenAddress.Laid(c, Home(hash, keys, |c|), lay) ==> OpenAddress.Laid(after, Home(hash, keys, |c|), more))
  {
    hide OpenAddress.Laid, Represents, WordsOf, Proper, NameOf, IsMap, OpenAddress.Walk, SlotHash, ValueOf;
    var h, home := hash(WordsOf(p)) % |c|, Home(hash, keys, |c|);
    var s := OpenAddress.Walk(h, d, |c|);
    if Folded(p) in m {
      SecondEntry(c, keys, values, m, s, e, Folded(p));
    } else {
      InsertEntry(c, keys, values, m, s, e, Folded(p), value);
      NewHomes(c, keys, values, m, homes, lay, e, Folded(p), h);
      OpenAddress.LayOne(c, Also(homes, e, h), lay, e, d);
    }
    if OpenAddress.Laid(c, home, lay) { OpenAddress.LayOne(c, home, lay, e, d); }
  }

  /** The entry a new name gets. */
  lemma NewEntry(p: Name, e: Slot, keys: seq<Name>, values: seq<nat>, hash: Words -> nat, value: nat)
    requires e.prefix == Prefix(p) && e.klen1 == |p| + 1 && |keys| == |values|
    requires if |p| + 1 > 9 then e.val == |keys| > 0 && keys[|keys| - 1] == p && values[|keys| - 1] == value else e.val == value
    ensures Proper(e, keys) && NameOf(e, keys) == Folded(p) && ValueOf(e, values) == value && SlotHash(hash, e, keys) == hash(WordsOf(p))
  {
    EightLoadsNothing(p);
    if |p| < 8 { UnloadBack(p); }
    hide LoadSmall, Unload;
  }

  lemma MoreHomes(c: Cells, keys: seq<Name>, values: seq<nat>, m: map<Name, nat>, key: Name, hash: Words -> nat, lay: OpenAddress.Layout<Slot>)
    requires Represents(c, keys, values, m) && |c| > 0 && OpenAddress.Laid(c, Home(hash, keys, |c|), lay)
    ensures OpenAddress.Laid(c, Home(hash, keys + [key], |c|), lay)
  {
    var a, b := Home(hash, keys, |c|), Home(hash, keys + [key], |c|);
    hide OpenAddress.Laid, Represents, WordsOf, LoadSmall, Unload;
    forall k | 0 <= k < |lay.log| ensures b(lay.log[k]) == a(lay.log[k]) {
      var s := OpenAddress.SlotOf(c, a, lay, k);
      EntryAt(c, keys, values, m, s);
    }
    OpenAddress.SameHomes(c, a, b, lay);
  }

  /** Every name of the old table is in the new one. */
  lemma AllRepresented(was: Cells, keys: seq<Name>, values: seq<nat>, m: map<Name, nat>, done: map<Name, nat>)
    requires Represents(was, keys, values, m)
    requires (forall n :: n in done <==> HeldBelow(was, keys, |was|, n)) && forall n :: n in done ==> n in m && done[n] == m[n]
    ensures done == m
  {
    forall n | n in m ensures n in done {
      var s := HolderOf(was, keys, values, m, n);
      assert 0 <= s < |was|;
    }
  }

  /** Where a rehash takes an entry's home to be. */
  function RebuiltHash(hash: Words -> nat, e: Slot, keys: seq<Name>): nat {
    if e.klen1 <= 9 then hash(WordsOf(Rebuilt(e))) else if 1 <= e.val <= |keys| then hash(WordsOf(keys[e.val - 1])) else 0
  }

  function RebuiltHome(hash: Words -> nat, keys: seq<Name>, n: nat): Slot -> nat
    requires n > 0
  {
    (e: Slot) => RebuiltHash(hash, e, keys) % n
  }

  /** Names that read the same turned: all of one, two, four, eight or more bytes, and the few others that repeat in step. */
  ghost predicate SafeNames(m: map<Name, nat>) { forall n :: n in m && |n| < 8 ==> Turned(n) == n }

  lemma ProperVal(c: Cells, keys: seq<Name>, values: seq<nat>, m: map<Name, nat>, i: nat)
    requires Represents(c, keys, values, m) && i < |c| && c[i].Held?
    ensures Proper(c[i].e, keys) && (c[i].e.klen1 > 9 ==> 1 <= c[i].e.val <= |keys|)
  {
    EntryAt(c, keys, values, m, i);
  }

  lemma HeldProper(c: Cells, keys: seq<Name>, values: seq<nat>, m: map<Name, nat>, s: nat)
    requires Represents(c, keys, values, m) && s < |c| && c[s].Held?
    ensures |keys| == |values| && (c[s].e.klen1 > 9 ==> 1 <= c[s].e.val <= |values|)
  {
    EntryAt(c, keys, values, m, s);
    hide Unload, LoadSmall;
  }

  lemma AllEntries(c: Cells, keys: seq<Name>, values: seq<nat>, m: map<Name, nat>)
    requires Represents(c, keys, values, m)
    ensures |keys| == |values|
  {
  }

  lemma SafeEntry(e: Slot, keys: seq<Name>, values: seq<nat>, m: map<Name, nat>, hash: Words -> nat)
    requires EntryOk(e, keys, values, m) && SafeNames(m)
    ensures SlotHash(hash, e, keys) == RebuiltHash(hash, e, keys)
  {
    if e.klen1 == 9 {
      KeepsExactly(EIGHT, e.val);
      EightLoadsNothing(EIGHT);
    } else if e.klen1 < 9 {
      KeepsExactly(Unload(e.prefix, e.klen1 - 1), e.val);
    }
    hide Unload, LoadSmall, Turned;
  }

  /** With safe names the rebuilt homes are the homes. */
  lemma SafeHomes(c: Cells, keys: seq<Name>, values: seq<nat>, m: map<Name, nat>, hash: Words -> nat, lay: OpenAddress.Layout<Slot>)
    requires |c| > 0 && Represents(c, keys, values, m) && SafeNames(m) && OpenAddress.Laid(c, RebuiltHome(hash, keys, |c|), lay)
    ensures OpenAddress.Laid(c, Home(hash, keys, |c|), lay)
  {
    var a, b := RebuiltHome(hash, keys, |c|), Home(hash, keys, |c|);
    hide OpenAddress.Laid, Represents, RebuiltHash, SlotHash, EntryOk, SafeNames;
    forall k | 0 <= k < |lay.log| ensures b(lay.log[k]) == a(lay.log[k]) {
      var s := OpenAddress.SlotOf(c, a, lay, k);
      EntryAt(c, keys, values, m, s);
      SafeEntry(lay.log[k], keys, values, m, hash);
    }
    OpenAddress.SameHomes(c, a, b, lay);
  }

  lemma HeldNext(c: Cells, i: nat)
    requires i < |c|
    ensures OpenAddress.HeldOf(c, i + 1) == OpenAddress.HeldOf(c, i) + if c[i].Held? then [c[i].e] else []
  {
  }

  lemma NothingRepresented(c: Cells, keys: seq<Name>, values: seq<nat>, was: Cells)
    requires |keys| == |values| && forall s :: 0 <= s < |c| ==> c[s].Empty?
    ensures Represents(c, keys, values, map[]) && forall n :: !HeldBelow(was, keys, 0, n)
    ensures OpenAddress.HeldOf(was, 0) == []
  {
  }

  lemma HeldValue(c: Cells, keys: seq<Name>, values: seq<nat>, m: map<Name, nat>, s: nat, n: Name)
    requires Represents(c, keys, values, m) && Holds(c, keys, s, n)
    ensures |keys| == |values| && n in m && (c[s].e.klen1 > 9 ==> 1 <= c[s].e.val <= |keys|) && m[n] == ValueOf(c[s].e, values)
  {
    EntryAt(c, keys, values, m, s);
    hide Unload, LoadSmall;
  }

  lemma EntryName(c: Cells, keys: seq<Name>, values: seq<nat>, m: map<Name, nat>, i: nat) returns (n: Name)
    requires Represents(c, keys, values, m) && i < |c| && c[i].Held?
    ensures Holds(c, keys, i, n)
  {
    EntryAt(c, keys, values, m, i);
    n := NameOf(c[i].e, keys);
  }

  /** Two names share an entry exactly when they are equal or both eight bytes long. */
  lemma FoldedExactly(p: Name, q: Name)
    ensures Folded(p) == Folded(q) <==> p == q || (|p| == 8 && |q| == 8)
  {
  }

  // ---- names a rehash loses --------------------------------------------------------------------

  /** A hash that tells one name's words from all others. */
  function Apart(p: Name): Words -> nat { w => if w == WordsOf(p) then 0 else 1 }

  /** The entry of a name that does not read the same turned is rebuilt as another name. */
  lemma RebuiltElsewhere(p: Name, e: Slot, keys: seq<Name>)
    requires |p| < 8 && Turned(p) != p && Proper(e, keys) && NameOf(e, keys) == p
    ensures RebuiltHash(Apart(p), e, keys) == 1
  {
    if e.klen1 > 9 {
      assert false;
    } else {
      HitIsName(p, e, keys);
      KeepsExactly(p, e.val);
      hide LoadSmall, Unload, Turned;
      assert |Rebuilt(e)| == |p|;
    }
  }

  /** Under every hash a rehash gives an inline name its own home exactly when the name reads the same turned. */
  lemma HomeKeptExactly(p: Name, val: nat)
    requires |p| <= 8
    ensures var e := Slot(Prefix(p), val, |p| + 1);
      (forall hash: Words -> nat :: RebuiltHash(hash, e, []) == SlotHash(hash, e, [])) <==> |p| == 8 || Turned(p) == p
  {
    var e := Slot(Prefix(p), val, |p| + 1);
    KeepsExactly(p, val);
    if |p| < 8 && Turned(p) != p {
      UnloadBack(p);
      RebuiltElsewhere(p, e, []);
      assert SlotHash(Apart(p), e, []) == 0;
    }
    hide LoadSmall, Unload, Turned;
  }

  /** In a table of one short name alone, rehashed, the name is found exactly when its home is that of the name turned. */
  lemma AloneFoundExactly(c: Cells, keys: seq<Name>, values: seq<nat>, hash: Words -> nat, p: Name, v: nat, lay: OpenAddress.Layout<Slot>)
    requires |c| > 0 && |p| < 8 && Represents(c, keys, values, map[p := v])
    requires OpenAddress.Laid(c, RebuiltHome(hash, keys, |c|), lay)
    ensures var i := hash(WordsOf(p)) % |c|;
      OpenAddress.Found(c, i, Hit(p, keys)).Held? <==> i == hash(WordsOf(Turned(p))) % |c|
  {
    hide OpenAddress.Laid, Represents, WordsOf, OpenAddress.Found, RebuiltHash, Turned, Proper, NameOf;
    var home, i := RebuiltHome(hash, keys, |c|), hash(WordsOf(p)) % |c|;
    var s := HolderOf(c, keys, values, map[p := v], p);
    var k := OpenAddress.LoggedAt(c, home, lay, s);
    OpenAddress.HomeIsTaken(c, home, lay, k);
    RebuiltName(hash, p, c[s].e, keys);
    var j := hash(WordsOf(Turned(p))) % |c|;
    OneHeld(c, keys, values, p, v, s, j);
    if i == j {
      HitIsName(p, c[s].e, keys);
      OpenAddress.StartsHere(c, i, Hit(p, keys));
    } else {
      if c[i].Held? { OneHeld(c, keys, values, p, v, s, i); }
      OpenAddress.StartsEmpty(c, i, Hit(p, keys));
    }
  }

  /** A rehash takes a short name's entry for the name turned. */
  lemma RebuiltName(hash: Words -> nat, p: Name, e: Slot, keys: seq<Name>)
    requires |p| < 8 && Proper(e, keys) && NameOf(e, keys) == p
    ensures RebuiltHash(hash, e, keys) == hash(WordsOf(Turned(p)))
  {
    HitIsName(p, e, keys);
    RebuiltIsTurned(p, e.val);
    hide LoadSmall, Unload, Turned;
  }

  lemma OnlyEntry(c: Cells, keys: seq<Name>, values: seq<nat>, p: Name, v: nat, s: nat)
    requires Represents(c, keys, values, map[p := v]) && s < |c| && c[s].Held?
    ensures Proper(c[s].e, keys) && NameOf(c[s].e, keys) == p
  {
    EntryAt(c, keys, values, map[p := v], s);
  }

  /** A table of one name holds one slot. */
  lemma OneHeld(c: Cells, keys: seq<Name>, values: seq<nat>, p: Name, v: nat, s: nat, t: nat)
    requires Represents(c, keys, values, map[p := v]) && s < |c| && t < |c| && c[s].Held? && c[t].Held?
    ensures s == t
  {
    OnlyEntry(c, keys, values, p, v, s);
    OnlyEntry(c, keys, values, p, v, t);
  }

  /**
   * Under any hash a short name that is set, and found, in an empty table is found after the table has grown exactly
   * when it and the name turned have one home there.
   */
  method SetAndGrow(hash: Words -> nat, p: Name, v: nat) returns (t: NameTable, before: Option<nat>, after: Option<nat>)
    requires |p| < 8
    ensures fresh(t) && t.hash == hash && t.Sound() && t.names == map[p := v] && before == Some(v) && after == t.Answer(p)
    ensures var n := t.slots.Length;
      after == if hash(WordsOf(p)) % n == hash(WordsOf(Turned(p))) % n then Some(v) else None
  {
    hide OpenAddress.Laid, Represents, WordsOf, OpenAddress.Found, Turned, NameTable.Answer, RebuiltHome;
    t, before := SetOne(hash, p, v);
    t.Reserve(t.slots.Length);
    after := t.Get(p);
    AloneAnswer(t, p, v);
  }

  /** A table of one name. */
  method SetOne(hash: Words -> nat, p: Name, v: nat) returns (t: NameTable, r: Option<nat>)
    requires |p| < 8
    ensures fresh(t) && t.hash == hash && t.Valid() && t.names == map[p := v] && r == Some(v)
  {
    hide OpenAddress.Laid, Represents, WordsOf, OpenAddress.Found, Turned, NameTable.Answer;
    t := new NameTable(hash);
    t.Set(p, v);
    assert t.names == map[p := v];
    r := t.Get(p);
  }

  lemma AloneAnswer(t: NameTable, p: Name, v: nat)
    requires |p| < 8 && t.Sound() && t.names == map[p := v] && t.homes == RebuiltHome(t.hash, t.keys, t.slots.Length)
    ensures var n := t.slots.Length;
      t.Answer(p) == if t.hash(WordsOf(p)) % n == t.hash(WordsOf(Turned(p))) % n then Some(v) else None
  {
    hide OpenAddress.Laid, Represents, WordsOf, OpenAddress.Found, Turned, RebuiltHome, ValueOf;
    AloneFoundExactly(t.slots[..], t.keys, t.values, t.hash, p, v, t.lay);
    if OpenAddress.Found(t.slots[..], t.hash(WordsOf(p)) % t.slots.Length, Hit(p, t.keys)).Held? {
      AloneValue(t.slots[..], t.keys, t.values, p, v, t.hash, t.homes, t.lay);
    }
  }

  /** The one entry's value. */
  lemma AloneValue(c: Cells, keys: seq<Name>, values: seq<nat>, p: Name, v: nat, hash: Words -> nat, homes: Slot -> nat,
                   lay: OpenAddress.Layout<Slot>)
    requires |c| > |lay.log| && |p| < 8 && Represents(c, keys, values, map[p := v]) && OpenAddress.Laid(c, homes, lay)
    requires OpenAddress.Found(c, hash(WordsOf(p)) % |c|, Hit(p, keys)).Held?
    ensures var e := OpenAddress.Found(c, hash(WordsOf(p)) % |c|, Hit(p, keys)).e;
      |keys| == |values| && (e.klen1 > 9 ==> 1 <= e.val <= |values|) && ValueOf(e, values) == v
  {
    hide OpenAddress.Laid, Represents, WordsOf, Proper, NameOf;
    var i, hit := hash(WordsOf(p)) % |c|, Hit(p, keys);
    OpenAddress.ProbeEnds(c, homes, lay, i, hit);
    var s := OpenAddress.Walk(i, OpenAddress.Probe(c, i, hit, 0), |c|);
    assert c[s] == OpenAddress.Found(c, i, hit);
    OnlyEntry(c, keys, values, p, v, s);
    HeldValue(c, keys, values, map[p := v], s, p);
  }

  /** Every name that reads differently turned is lost so under some hash: set, then not found. */
  method LoseName(p: Name, v: nat) returns (t: NameTable, r: Option<nat>)
    requires |p| < 8 && Turned(p) != p
    ensures fresh(t) && t.Sound() && t.names == map[p := v] && r == t.Answer(p) == None
  {
    hide WordsOf, Turned, Apart, NameTable.Sound, NameTable.Answer;
    TurnedApart(p);
    var before;
    t, before, r := SetAndGrow(Apart(p), p, v);
    ApartHomes(t);
  }

  lemma ApartHomes(t: NameTable)
    requires t.Sound()
    ensures t.slots.Length > 1 && 0 % t.slots.Length == 0 && 1 % t.slots.Length == 1
  {}

  lemma TurnedApart(p: Name)
    requires |p| < 8 && Turned(p) != p
    ensures Apart(p)(WordsOf(p)) == 0 && Apart(p)(WordsOf(Turned(p))) == 1
  {
    UnloadBack(p);
    UnloadBack(Turned(p));
    hide LoadSmall, Unload, Turned;
    assert |Turned(p)| == |p|;
  }
}
