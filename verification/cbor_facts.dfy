/** What the reading of CBOR guarantees: extent, appended bytes, count checks, strictness, tree shape. */
module CborFacts {
  import opened Bytes
  import opened CborRead
  import Utf8

  // ---- appended bytes ---------------------------------------------------------

  lemma ArgExtends(p: seq<byte>, q: seq<byte>, i: nat, ai: nat, strict: bool)
    requires i <= |p| && ReadArg(p, i, ai, strict).ArgOk?
    ensures ReadArg(p + q, i, ai, strict) == ReadArg(p, i, ai, strict)
  {
    if 24 <= ai < 28 {
      assert (p + q)[i..i + ArgWidth(ai)] == p[i..i + ArgWidth(ai)];
    }
  }

  lemma ChunkExtends(p: seq<byte>, q: seq<byte>, i: nat, isText: bool, strict: bool)
    requires i <= |p| && !ReadChunk(p, i, isText, strict).BadChunk?
    ensures ReadChunk(p + q, i, isText, strict) == ReadChunk(p, i, isText, strict)
  {
    hide ReadArg;
    var c := ReadChunk(p, i, isText, strict);
    if c.Data? {
      ArgExtends(p, q, i + 1, p[i] % 32, strict);
      assert (p + q)[c.start..c.start + c.len] == p[c.start..c.start + c.len];
    }
  }

  lemma {:induction false} ChunksExtend(p: seq<byte>, q: seq<byte>, i: nat, isText: bool, strict: bool)
    requires i <= |p| && ReadChunks(p, i, isText, strict).ChunksOk?
    ensures ReadChunks(p + q, i, isText, strict) == ReadChunks(p, i, isText, strict)
    decreases |p| - i
  {
    hide ReadChunk;
    ChunkExtends(p, q, i, isText, strict);
    match ReadChunk(p, i, isText, strict)
    case Break =>
    case Data(j, n) =>
      ChunksExtend(p, q, j + n, isText, strict);
      assert (p + q)[j..j + n] == p[j..j + n];
  }

  lemma SimpleExtends(p: seq<byte>, q: seq<byte>, i: nat, ai: nat, key: bool, strict: bool, tag: seq<byte>)
    requires i <= |p| && ai < 31 && !SimpleHead(p, i, ai, key, strict, tag).Reject?
    ensures SimpleHead(p + q, i, ai, key, strict, tag) == SimpleHead(p, i, ai, key, strict, tag)
  {
    hide BigEndian, SimpleEvent;
    if 25 <= ai <= 27 {
      assert (p + q)[i..i + ArgWidth(ai)] == p[i..i + ArgWidth(ai)];
    }
  }

  lemma StringExtends(p: seq<byte>, q: seq<byte>, i: nat, n: nat, isText: bool, key: bool, strict: bool, tag: seq<byte>)
    requires i <= |p| && !StringHead(p, i, n, isText, key, strict, tag).Reject?
    ensures StringHead(p + q, i, n, isText, key, strict, tag) == StringHead(p, i, n, isText, key, strict, tag)
  {
    assert (p + q)[i..i + n] == p[i..i + n];
  }

  lemma HeadExtends(p: seq<byte>, q: seq<byte>, i: nat, chain: seq<nat>, key: bool, depth: nat, strict: bool)
    requires i <= |p| && !ReadHead(p, i, chain, key, depth, strict, true).Reject?
    ensures ReadHead(p + q, i, chain, key, depth, strict, true) == ReadHead(p, i, chain, key, depth, strict, true)
  {
    hide ReadArg, ReadChunks, SimpleHead, StringHead, ChainText;
    var mt, ai := p[i] / 32, p[i] % 32;
    assert (p + q)[i] == p[i];
    if ai == 31 {
      if mt == 2 || mt == 3 { ChunksExtend(p, q, i + 1, mt == 3, strict); }
    } else if mt == 7 {
      SimpleExtends(p, q, i + 1, ai, key, strict, ChainText(chain));
    } else {
      ArgExtends(p, q, i + 1, ai, strict);
      var a := ReadArg(p, i + 1, ai, strict);
      if mt == 2 || mt == 3 { StringExtends(p, q, a.next, a.val, mt == 3, key, strict, ChainText(chain)); }
    }
  }

  /** Bytes after an item never change how it reads. */
  lemma {:induction false} ItemExtends(p: seq<byte>, q: seq<byte>, i: nat, chain: seq<nat>, f: Frame, depth: nat, strict: bool)
    requires i <= |p| && ReadItem(p, i, chain, f, depth, strict, true).Done?
    ensures ReadItem(p + q, i, chain, f, depth, strict, true) == ReadItem(p, i, chain, f, depth, strict, true)
    decreases |p| - i, 0, 0
  {
    hide ReadHead;
    HeadExtends(p, q, i, chain, f.KeySlot(), depth, strict);
    match ReadHead(p, i, chain, f.KeySlot(), depth, strict, true)
    case Tag(link, j) => ItemExtends(p, q, j, chain + [link], f, depth, strict);
    case Leaf(e, j) =>
    case Begin(isMap, rem, tag, j) => BodyExtends(p, q, j, Frame(rem, 0, isMap), depth + 1, strict);
  }

  lemma {:induction false} BodyExtends(p: seq<byte>, q: seq<byte>, i: nat, f: Frame, depth: nat, strict: bool)
    requires i <= |p| && ReadBody(p, i, f, depth, strict, true).Done?
    ensures ReadBody(p + q, i, f, depth, strict, true) == ReadBody(p, i, f, depth, strict, true)
    decreases |p| - i, 1, 0
  {
    hide ReadItem;
    if f.rem == Items(0) || (f.rem == UntilBreak && i < |p| && p[i] == 0xFF) {
    } else {
      var o := ReadItem(p, i, [], f, depth, strict, true);
      assert o.Done?;
      ItemExtends(p, q, i, [], f, depth, strict);
      BodyExtends(p, q, o.next, f.Next(), depth, strict);
      if f.rem == UntilBreak && i == |p| { EmptyRejects(p, f, depth, strict); }
    }
  }

  lemma EmptyRejects(p: seq<byte>, f: Frame, depth: nat, strict: bool)
    ensures ReadItem(p, |p|, [], f, depth, strict, true).Failed?
  {}

  // ---- the count checks ----------------------------------------------------------

  /** Every item takes at least a byte, so a body of n items takes at least n. */
  lemma {:induction false} BodyExtent(p: seq<byte>, i: nat, f: Frame, depth: nat, strict: bool, guarded: bool)
    requires i <= |p| && f.rem.Items? && ReadBody(p, i, f, depth, strict, guarded).Done?
    ensures ReadBody(p, i, f, depth, strict, guarded).next >= i + f.rem.n
    decreases f.rem.n
  {
    hide ReadItem;
    if f.rem.n > 0 {
      BodyExtent(p, ReadItem(p, i, [], f, depth, strict, guarded).next, f.Next(), depth, strict, guarded);
    }
  }

  /** The two heads differ only by the count check. */
  lemma HeadGuard(p: seq<byte>, i: nat, chain: seq<nat>, key: bool, depth: nat, strict: bool)
    requires i <= |p|
    ensures var u, g := ReadHead(p, i, chain, key, depth, strict, false), ReadHead(p, i, chain, key, depth, strict, true);
      u == g || (g.Reject? && (u.Reject? || (u.Begin? && u.rem.Items? && u.rem.n > |p| - u.next)))
  {
    hide ReadArg, ReadChunks, SimpleHead, StringHead, IntHead, ChainText;
  }

  /**
   * The overrun checks refuse nothing that reading item by item would accept: with and without them
   * the same inputs are read, to the same calls.
   */
  lemma {:induction false} GuardNeverEarly(p: seq<byte>, i: nat, chain: seq<nat>, f: Frame, depth: nat, strict: bool)
    requires i <= |p|
    ensures var u := ReadItem(p, i, chain, f, depth, strict, false);
      var g := ReadItem(p, i, chain, f, depth, strict, true);
      u.Done? || g.Done? ==> u == g
    decreases |p| - i, 0, 0
  {
    hide ReadHead, ReadBody;
    HeadGuard(p, i, chain, f.KeySlot(), depth, strict);
    match ReadHead(p, i, chain, f.KeySlot(), depth, strict, false)
    case Reject(_) =>
    case Leaf(_, _) =>
    case Tag(link, j) => GuardNeverEarly(p, j, chain + [link], f, depth, strict);
    case Begin(isMap, rem, tag, j) =>
      var child := Frame(rem, 0, isMap);
      GuardNeverEarlyBody(p, j, child, depth + 1, strict);
      if rem.Items? && ReadBody(p, j, child, depth + 1, strict, false).Done? {
        BodyExtent(p, j, child, depth + 1, strict, false);
      }
  }

  lemma {:induction false} GuardNeverEarlyBody(p: seq<byte>, i: nat, f: Frame, depth: nat, strict: bool)
    requires i <= |p|
    ensures var u, g := ReadBody(p, i, f, depth, strict, false), ReadBody(p, i, f, depth, strict, true);
      u.Done? || g.Done? ==> u == g
    decreases |p| - i, 1, 0
  {
    hide ReadItem;
    if f.rem == Items(0) || (f.rem == UntilBreak && i < |p| && p[i] == 0xFF) {
    } else {
      GuardNeverEarly(p, i, [], f, depth, strict);
      var o := ReadItem(p, i, [], f, depth, strict, false);
      if o.Done? { GuardNeverEarlyBody(p, o.next, f.Next(), depth, strict); }
      var o' := ReadItem(p, i, [], f, depth, strict, true);
      if o'.Done? { GuardNeverEarlyBody(p, o'.next, f.Next(), depth, strict); }
    }
  }

  // ---- nothing past the end is looked at --------------------------------------------

  lemma ArgShrinks(a: seq<byte>, b: seq<byte>, i: nat, ai: nat, strict: bool)
    requires i <= |a|
    requires ReadArg(a + b, i, ai, strict).ArgOk? && ReadArg(a + b, i, ai, strict).next <= |a|
    ensures ReadArg(a, i, ai, strict) == ReadArg(a + b, i, ai, strict)
  {
    if 24 <= ai < 28 {
      assert (a + b)[i..i + ArgWidth(ai)] == a[i..i + ArgWidth(ai)];
    }
  }

  lemma ChunkShrinks(a: seq<byte>, b: seq<byte>, i: nat, isText: bool, strict: bool)
    requires i < |a| && !ReadChunk(a + b, i, isText, strict).BadChunk?
    requires var c := ReadChunk(a + b, i, isText, strict); c.Data? ==> c.start + c.len <= |a|
    ensures ReadChunk(a, i, isText, strict) == ReadChunk(a + b, i, isText, strict)
  {
    hide ReadArg;
    var c := ReadChunk(a + b, i, isText, strict);
    if c.Data? {
      ArgShrinks(a, b, i + 1, a[i] % 32, strict);
      assert (a + b)[c.start..c.start + c.len] == a[c.start..c.start + c.len];
    }
  }

  lemma {:induction false} ChunksShrink(a: seq<byte>, b: seq<byte>, i: nat, isText: bool, strict: bool)
    requires i <= |a| && ReadChunks(a + b, i, isText, strict).ChunksOk?
    requires ReadChunks(a + b, i, isText, strict).next <= |a|
    ensures ReadChunks(a, i, isText, strict) == ReadChunks(a + b, i, isText, strict)
    decreases |a| - i
  {
    hide ReadChunk;
    var c := ReadChunk(a + b, i, isText, strict);
    if c.Data? { assert c.start + c.len <= ReadChunks(a + b, c.start + c.len, isText, strict).next; }
    ChunkShrinks(a, b, i, isText, strict);
    match c
    case Break =>
    case Data(j, n) =>
      ChunksShrink(a, b, j + n, isText, strict);
      assert (a + b)[j..j + n] == a[j..j + n];
  }

  lemma SimpleShrinks(a: seq<byte>, b: seq<byte>, i: nat, ai: nat, key: bool, strict: bool, tag: seq<byte>)
    requires i <= |a| && ai < 31
    requires var h := SimpleHead(a + b, i, ai, key, strict, tag); h.Leaf? && h.next <= |a|
    ensures SimpleHead(a, i, ai, key, strict, tag) == SimpleHead(a + b, i, ai, key, strict, tag)
  {
    hide BigEndian, SimpleEvent;
    if 25 <= ai <= 27 {
      assert (a + b)[i..i + ArgWidth(ai)] == a[i..i + ArgWidth(ai)];
    }
  }

  lemma StringShrinks(a: seq<byte>, b: seq<byte>, i: nat, n: nat, isText: bool, key: bool, strict: bool, tag: seq<byte>)
    requires i <= |a|
    requires var h := StringHead(a + b, i, n, isText, key, strict, tag); h.Leaf? && h.next <= |a|
    ensures StringHead(a, i, n, isText, key, strict, tag) == StringHead(a + b, i, n, isText, key, strict, tag)
  {
    assert (a + b)[i..i + n] == a[i..i + n];
  }

  lemma HeadShrinks(a: seq<byte>, b: seq<byte>, i: nat, chain: seq<nat>, key: bool, depth: nat, strict: bool)
    requires i <= |a|
    requires var h := ReadHead(a + b, i, chain, key, depth, strict, false); !h.Reject? && h.next <= |a|
    ensures ReadHead(a, i, chain, key, depth, strict, false) == ReadHead(a + b, i, chain, key, depth, strict, false)
  {
    hide ReadArg, ReadChunks, SimpleHead, StringHead, ChainText;
    var p := a + b;
    var mt, ai := p[i] / 32, p[i] % 32;
    assert i < |a| && p[i] == a[i];
    if ai == 31 {
      if mt == 2 || mt == 3 { ChunksShrink(a, b, i + 1, mt == 3, strict); }
    } else if mt == 7 {
      SimpleShrinks(a, b, i + 1, ai, key, strict, ChainText(chain));
    } else {
      var r := ReadArg(p, i + 1, ai, strict);
      assert r.next <= |a|;
      ArgShrinks(a, b, i + 1, ai, strict);
      if mt == 2 || mt == 3 { StringShrinks(a, b, r.next, r.val, mt == 3, key, strict, ChainText(chain)); }
    }
  }

  lemma {:induction false} ItemShrinks(a: seq<byte>, b: seq<byte>, i: nat, chain: seq<nat>, f: Frame, depth: nat, strict: bool)
    requires i <= |a|
    requires var o := ReadItem(a + b, i, chain, f, depth, strict, false); o.Done? && o.next <= |a|
    ensures ReadItem(a, i, chain, f, depth, strict, false) == ReadItem(a + b, i, chain, f, depth, strict, false)
    decreases |a| - i, 0, 0
  {
    hide ReadHead;
    assert i < |a| && a[i] == (a + b)[i];
    HeadShrinks(a, b, i, chain, f.KeySlot(), depth, strict);
    match ReadHead(a, i, chain, f.KeySlot(), depth, strict, false)
    case Tag(link, j) => ItemShrinks(a, b, j, chain + [link], f, depth, strict);
    case Leaf(e, j) =>
    case Begin(isMap, rem, tag, j) => BodyShrinks(a, b, j, Frame(rem, 0, isMap), depth + 1, strict);
  }

  lemma {:induction false} BodyShrinks(a: seq<byte>, b: seq<byte>, i: nat, f: Frame, depth: nat, strict: bool)
    requires i <= |a|
    requires var o := ReadBody(a + b, i, f, depth, strict, false); o.Done? && o.next <= |a|
    ensures ReadBody(a, i, f, depth, strict, false) == ReadBody(a + b, i, f, depth, strict, false)
    decreases |a| - i, 1, 0
  {
    hide ReadItem;
    if f.rem == Items(0) {
    } else if f.rem == UntilBreak && i < |a + b| && (a + b)[i] == 0xFF {
    } else {
      var o := ReadItem(a + b, i, [], f, depth, strict, false);
      ItemShrinks(a, b, i, [], f, depth, strict);
      BodyShrinks(a, b, o.next, f.Next(), depth, strict);
    }
  }

  /** An item reads the same from exactly its own bytes. */
  lemma ItemAlone(p: seq<byte>, strict: bool)
    requires Read(p, strict).Done?
    ensures Read(p[..Read(p, strict).next], strict) == Read(p, strict)
  {
    hide ReadItem;
    var n := Read(p, strict).next;
    GuardNeverEarly(p, 0, [], TOP, 0, strict);
    assert p[..n] + p[n..] == p;
    ItemShrinks(p[..n], p[n..], 0, [], TOP, 0, strict);
    GuardNeverEarly(p[..n], 0, [], TOP, 0, strict);
  }

  // ---- strict mode ----------------------------------------------------------------

  lemma ArgStrict(p: seq<byte>, i: nat, ai: nat)
    requires i <= |p| && ReadArg(p, i, ai, true).ArgOk?
    ensures ReadArg(p, i, ai, false) == ReadArg(p, i, ai, true)
  {}

  lemma ChunkStrict(p: seq<byte>, i: nat, isText: bool)
    requires i <= |p| && !ReadChunk(p, i, isText, true).BadChunk?
    ensures ReadChunk(p, i, isText, false) == ReadChunk(p, i, isText, true)
  {
    hide ReadArg;
    if p[i] != 0xFF { ArgStrict(p, i + 1, p[i] % 32); }
  }

  lemma {:induction false} ChunksStrict(p: seq<byte>, i: nat, isText: bool)
    requires i <= |p| && ReadChunks(p, i, isText, true).ChunksOk?
    ensures ReadChunks(p, i, isText, false) == ReadChunks(p, i, isText, true)
    decreases |p| - i
  {
    hide ReadChunk;
    ChunkStrict(p, i, isText);
    var c := ReadChunk(p, i, isText, true);
    if c.Data? { ChunksStrict(p, c.start + c.len, isText); }
  }

  lemma HeadStrict(p: seq<byte>, i: nat, chain: seq<nat>, key: bool, depth: nat)
    requires i <= |p| && !ReadHead(p, i, chain, key, depth, true, true).Reject?
    ensures ReadHead(p, i, chain, key, depth, false, true) == ReadHead(p, i, chain, key, depth, true, true)
  {
    hide ReadArg, ReadChunks, ChainText, BigEndian, SimpleEvent;
    var mt, ai := p[i] / 32, p[i] % 32;
    if ai == 31 {
      if mt == 2 || mt == 3 { ChunksStrict(p, i + 1, mt == 3); }
    } else if mt != 7 {
      ArgStrict(p, i + 1, ai);
    }
  }

  /** Strict mode only ever refuses more: what it accepts, lenient mode reads the same way. */
  lemma {:induction false} StrictRefines(p: seq<byte>, i: nat, chain: seq<nat>, f: Frame, depth: nat)
    requires i <= |p| && ReadItem(p, i, chain, f, depth, true, true).Done?
    ensures ReadItem(p, i, chain, f, depth, false, true) == ReadItem(p, i, chain, f, depth, true, true)
    decreases |p| - i, 0, 0
  {
    hide ReadHead;
    HeadStrict(p, i, chain, f.KeySlot(), depth);
    match ReadHead(p, i, chain, f.KeySlot(), depth, true, true)
    case Tag(link, j) => StrictRefines(p, j, chain + [link], f, depth);
    case Leaf(e, j) =>
    case Begin(isMap, rem, tag, j) => StrictRefinesBody(p, j, Frame(rem, 0, isMap), depth + 1);
  }

  lemma {:induction false} StrictRefinesBody(p: seq<byte>, i: nat, f: Frame, depth: nat)
    requires i <= |p| && ReadBody(p, i, f, depth, true, true).Done?
    ensures ReadBody(p, i, f, depth, false, true) == ReadBody(p, i, f, depth, true, true)
    decreases |p| - i, 1, 0
  {
    hide ReadItem;
    if f.rem == Items(0) || (f.rem == UntilBreak && i < |p| && p[i] == 0xFF) {
    } else {
      StrictRefines(p, i, [], f, depth);
      StrictRefinesBody(p, ReadItem(p, i, [], f, depth, true, true).next, f.Next(), depth);
    }
  }

  // ---- the calls form a tree -----------------------------------------------------------

  datatype Tree = Scalar(event: Event) | Branch(isMap: bool, cap: Remaining, tag: seq<byte>, kids: seq<Tree>)

  /** The sink calls of a tree, in order. */
  function Flat(t: Tree): seq<Event> {
    match t
    case Scalar(e) => [e]
    case Branch(isMap, cap, tag, kids) => [Open(isMap, cap, tag)] + FlatAll(kids) + [Close(isMap)]
  }

  function FlatAll(ts: seq<Tree>): seq<Event> {
    if ts == [] then [] else Flat(ts[0]) + FlatAll(ts[1..])
  }

  /** Counts hold, maps are pairs, and exactly the even children of a map are keys, none of them a container. */
  predicate Shaped(t: Tree, key: bool)
    decreases t
  {
    match t
    case Scalar(e) => !e.Open? && !e.Close? && e.isKey == key
    case Branch(isMap, cap, tag, kids) =>
      && !key
      && (cap.Items? ==> |kids| == cap.n)
      && (isMap ==> |kids| % 2 == 0)
      && forall k :: 0 <= k < |kids| ==> Shaped(kids[k], isMap && k % 2 == 0)
  }

  lemma HeadLeafShape(p: seq<byte>, i: nat, chain: seq<nat>, key: bool, depth: nat, strict: bool)
    requires i <= |p|
    ensures var h := ReadHead(p, i, chain, key, depth, strict, true);
      && (h.Leaf? ==> Shaped(Scalar(h.event), key))
      && (h.Begin? ==> !key && (h.isMap && h.rem.Items? ==> h.rem.n % 2 == 0))
  {
    hide ReadArg, ReadChunks, ChainText, BigEndian;
  }

  /** What was read is one tree: every Open has its Close, with the promised children between them. */
  lemma {:induction false} ItemTree(p: seq<byte>, i: nat, chain: seq<nat>, f: Frame, depth: nat, strict: bool)
    returns (t: Tree)
    requires i <= |p| && ReadItem(p, i, chain, f, depth, strict, true).Done?
    ensures ReadItem(p, i, chain, f, depth, strict, true).events == Flat(t)
    ensures Shaped(t, f.KeySlot())
    decreases |p| - i, 0, 0
  {
    hide ReadHead;
    HeadLeafShape(p, i, chain, f.KeySlot(), depth, strict);
    match ReadHead(p, i, chain, f.KeySlot(), depth, strict, true)
    case Tag(link, j) => t := ItemTree(p, j, chain + [link], f, depth, strict);
    case Leaf(e, j) => t := Scalar(e);
    case Begin(isMap, rem, tag, j) =>
      var kids := BodyTree(p, j, Frame(rem, 0, isMap), depth + 1, strict);
      t := Branch(isMap, rem, tag, kids);
      assert [Open(isMap, rem, tag)] + (FlatAll(kids) + [Close(isMap)]) == Flat(t);
  }

  lemma {:induction false} BodyTree(p: seq<byte>, i: nat, f: Frame, depth: nat, strict: bool) returns (kids: seq<Tree>)
    requires i <= |p| && ReadBody(p, i, f, depth, strict, true).Done?
    requires f.isMap && f.rem.Items? ==> (f.rem.n + f.consumed) % 2 == 0
    ensures ReadBody(p, i, f, depth, strict, true).events == FlatAll(kids) + [Close(f.isMap)]
    ensures f.rem.Items? ==> |kids| == f.rem.n
    ensures f.isMap ==> (f.consumed + |kids|) % 2 == 0
    ensures forall k :: 0 <= k < |kids| ==> Shaped(kids[k], f.isMap && (f.consumed + k) % 2 == 0)
    decreases |p| - i, 1, 0
  {
    hide ReadItem, Shaped, Flat, FlatAll;
    if f.rem == Items(0) || (f.rem == UntilBreak && i < |p| && p[i] == 0xFF) {
      kids := [];
      NoKids(Close(f.isMap));
    } else {
      var o := ReadItem(p, i, [], f, depth, strict, true);
      var first := ItemTree(p, i, [], f, depth, strict);
      var rest := BodyTree(p, o.next, f.Next(), depth, strict);
      kids := [first] + rest;
      assert kids[1..] == rest;
      Joined(o.events, first, rest, Close(f.isMap));
      forall k | 0 <= k < |kids| ensures Shaped(kids[k], f.isMap && (f.consumed + k) % 2 == 0) {
        if k > 0 { assert kids[k] == rest[k - 1] && f.Next().consumed + (k - 1) == f.consumed + k; }
      }
    }
  }

  lemma NoKids(close: Event)
    ensures FlatAll([]) + [close] == [close]
  {}

  lemma Joined(events: seq<Event>, first: Tree, rest: seq<Tree>, close: Event)
    requires events == Flat(first)
    ensures events + (FlatAll(rest) + [close]) == FlatAll([first] + rest) + [close]
  {
    assert ([first] + rest)[1..] == rest;
    assert events + (FlatAll(rest) + [close]) == (events + FlatAll(rest)) + [close];
  }

  // ---- where the code leaves RFC 8949, by example -----------------------------------------

  /**
   * The documentation has strict mode refuse map keys that are not text strings. The simple values have no such
   * check, and an indefinite-length text string is refused: a key slot accepts exactly the definite text strings
   * a value slot accepts and the well-formed simple values.
   */
  lemma StrictKeys(p: seq<byte>, i: nat, chain: seq<nat>, depth: nat)
    requires i < |p|
    ensures ReadHead(p, i, chain, true, depth, true, true).Leaf? <==>
            || (p[i] / 32 == 3 && p[i] % 32 != 31 && ReadHead(p, i, chain, false, depth, true, true).Leaf?)
            || (p[i] / 32 == 7 && (p[i] % 32 < 24 || (p[i] % 32 == 24 && i + 1 < |p| && p[i + 1] >= 32)))
  {
    hide ReadChunks, ChainText, BigEndian;
  }

  /** A lenient negative key is off by one: the key -1 - n is rendered as "-n". */
  lemma NegativeKeyText(n: nat, tag: seq<byte>, next: nat)
    ensures IntHead(true, n, true, false, tag, next) == Leaf(Text([0x2D] + Decimal(n), TAG_STR, true, tag), next)
    ensures DigitsValue(IntHead(true, n, true, false, tag, next).event.text[1..]) != n + 1
  {
    var text := [0x2D] + Decimal(n);
    assert text[1..] == Decimal(n);
    DecimalRoundTrip(n);
  }
}
