/** The Marshal reader as the program runs it: one cursor, the symbol and link tables, growing buffers. */
module MarshalWalk {
  import opened Wrappers
  import opened Bytes
  import opened MarshalNumber
  import opened MarshalRead
  import CborHeads
  import CborEncode
  import CborWriter

  /** A growing output buffer. */
  class Buffer {
    var bytes: seq<byte>

    constructor ()
      ensures bytes == []
    {
      bytes := [];
    }

    method Put(s: seq<byte>)
      modifies this
      ensures bytes == old(bytes) + s
    {
      bytes := bytes + s;
    }
  }

  function Target(out: Buffer?): set<object> { if out == null then {} else {out} }

  /** Whether two of the keys are equal: each against every earlier one. */
  method AnyTwice(keys: seq<seq<byte>>) returns (twice: bool)
    ensures twice == Twice(keys)
  {
    var i := 1;
    while i < |keys|
      invariant i >= 1
      invariant forall a, b :: 0 <= b < a < |keys| && a < i ==> keys[a] != keys[b]
    {
      var j := 0;
      while j < i
        invariant j <= i && forall b :: 0 <= b < j ==> keys[i] != keys[b]
      {
        if keys[i] == keys[j] {
          return true;
        }
        j := j + 1;
      }
      i := i + 1;
    }
    return false;
  }

  lemma InOrderStep(pairs: seq<seq<byte>>, order: seq<nat>, p: nat)
    requires CborEncode.Indices(order, |pairs|) && p < |order|
    ensures InOrder(pairs, order[..p + 1]) == InOrder(pairs, order[..p]) + pairs[order[p]]
  {
    assert order[..p + 1][..p] == order[..p];
  }

  /** Pairs already gathered in front of the rest. */
  function Gathered(keys: seq<seq<byte>>, pairs: seq<seq<byte>>, rest: Rows): Rows {
    match rest
    case NoRows => NoRows
    case Rows(ks, ps, m) => Rows(keys + ks, pairs + ps, m)
  }

  lemma GatherOne(keys: seq<seq<byte>>, pairs: seq<seq<byte>>, k: seq<byte>, p: seq<byte>, rest: Rows)
    ensures Gathered(keys, pairs, Behind(k, p, rest)) == Gathered(keys + [k], pairs + [p], rest)
  {
    if rest.Rows? {
      assert keys + ([k] + rest.keys) == keys + [k] + rest.keys;
      assert pairs + ([p] + rest.pairs) == pairs + [p] + rest.pairs;
    }
  }

  lemma GatherNothing(r: Rows)
    ensures Gathered([], [], r) == r
  {
  }

  lemma AfterTwice(a: seq<byte>, b: seq<byte>, r: Item)
    ensures After(a, After(b, r)) == After(a + b, r)
  {
    if r.Item? { assert a + (b + r.bytes) == a + b + r.bytes; }
  }

  lemma AfterNothing(r: Item)
    ensures After([], r) == r
  {
  }

  class Walker {
    const c: Config
    var at: nat
    var syms: seq<Span>
    var objs: seq<Memo>
    var noReg: bool
    var inKey: bool
    var depth: nat

    constructor (c: Config, at: nat)
      ensures this.c == c && Mem() == Memory(at, [], []) && !noReg && !inKey && depth == 0
    {
      this.c, this.at := c, at;
      syms, objs, noReg, inKey, depth := [], [], false, false, 0;
    }

    function Mem(): Memory
      reads this
    {
      Memory(at, syms, objs)
    }

    /** The walk did what the specification says. */
    twostate predicate Did(ok: bool, out: Buffer?, r: Item)
      reads this, out
    {
      && ok == r.Item?
      && (ok ==> Mem() == r.m && depth == old(depth) && inKey == old(inKey) && !noReg)
      && (ok && out != null ==> out.bytes == old(out.bytes) + r.bytes)
    }

    /** cm_long. */
    method Long() returns (ok: bool, x: int)
      requires at <= |c.s|
      modifies `at
      ensures at <= |c.s|
      ensures var t := TakeLong(c.s, old(at)); ok == t.Taken? && (ok ==> x == t.x && at == t.next)
    {
      hide TakeLong;
      if at >= |c.s| {
        NothingToTake(c.s, at);
        return false, 0;
      }
      LongAt(c.s, at);
      var b := c.s[at];
      at := at + 1;
      if b == 0 {
        return true, 0;
      }
      if b <= 4 {
        ok, x := Number(b);
        return;
      }
      if b <= 127 {
        return true, b - 5;
      }
      if b == 128 {
        return false, 0;
      }
      if b <= 250 {
        return true, b as int - 251;
      }
      ok, x := Number(256 - b);
      x := x - Power256(256 - b);
    }

    /** k bytes, the low one first. */
    method Number(k: nat) returns (ok: bool, v: nat)
      requires at <= |c.s|
      modifies `at
      ensures at <= |c.s|
      ensures ok == (old(at) + k <= |c.s|) && (ok ==> at == old(at) + k && v == LittleEndian(c.s[old(at)..at]))
    {
      var i, start := 0, at;
      v := 0;
      assert c.s[start..start] == [];
      while i < k
        invariant i <= k && at == start + i <= |c.s| && v == LittleEndian(c.s[start..at])
      {
        if at >= |c.s| {
          return false, 0;
        }
        NextByte(c.s[start..at], c.s[at]);
        assert c.s[start..at + 1] == c.s[start..at] + [c.s[at]];
        v := v + c.s[at] * Power256(i);
        at := at + 1;
        i := i + 1;
      }
      ok := true;
    }

    /** A length and that many bytes. */
    method Take() returns (ok: bool, p: Span)
      requires at <= |c.s|
      modifies `at
      ensures at <= |c.s|
      ensures var t := TakeBytes(c.s, old(at)); ok == t.Cutting? && (ok ==> p == t.bytes && at == t.next)
    {
      hide TakeLong;
      var n;
      ok, n := Long();
      if !ok || n < 0 || n > |c.s| - at {
        return false, [];
      }
      p := c.s[at..at + n];
      at := at + n;
    }

    /** cm_value. */
    method Value(out: Buffer?) returns (ok: bool)
      requires at <= |c.s|
      modifies this, Target(out)
      ensures Did(ok, out, MarshalRead.Value(c, old(Mem()), old(inKey), out != null, old(depth), old(noReg)))
      decreases |c.s| - at, 1
    {
      hide MarshalRead.Construct;
      var register := !noReg;
      noReg := false;
      if depth >= MAX_DEPTH || at >= |c.s| {
        return false;
      }
      var t := c.s[at];
      var slot := None;
      if register && Registers(t) {
        slot := Some(|objs|);
        objs := objs + [Memo(SlotKind(c.s, at), None, None)];
      }
      at := at + 1;
      var start := if out == null then 0 else |out.bytes|;
      ok := Construct(t, slot, out);
      if ok && slot.Some? && out != null {
        objs := objs[slot.value := objs[slot.value].(span := Some(out.bytes[start..]))];
      }
    }

    /** The bytes go out, unless the value is only consumed. */
    method Emit(out: Buffer?, b: Option<seq<byte>>) returns (ok: bool)
      modifies Target(out)
      ensures ok == (out == null || b.Some?)
      ensures ok && out != null ==> out.bytes == old(out.bytes) + b.value
    {
      ok := true;
      if out != null {
        if b.None? {
          return false;
        }
        out.Put(b.value);
      }
    }

    /** The switch of cm_value. */
    method Construct(t: byte, slot: Option<nat>, out: Buffer?) returns (ok: bool)
      requires at <= |c.s| && !noReg && (slot.Some? ==> slot.value < |objs|)
      modifies this, Target(out)
      ensures Did(ok, out, MarshalRead.Construct(c, old(Mem()), t, slot, old(inKey), out != null, old(depth)))
      decreases |c.s| - at, 4
    {
      hide Atom, MarshalRead.Wrapped, MarshalRead.Elements, TableOf, MarshalRead.Value, IvarPairs;
      if t == 0x49 {
        ok := Ivar(slot, out);
      } else if t == 0x5B {
        ok := List(out);
      } else if t == 0x7B {
        ok := Table(out);
      } else {
        ok := Scalar(t, slot, out);
      }
    }

    /** The arms that take no further values. */
    method Scalar(t: byte, slot: Option<nat>, out: Buffer?) returns (ok: bool)
      requires at <= |c.s| && !noReg && (slot.Some? ==> slot.value < |objs|)
      modifies this, Target(out)
      ensures Did(ok, out, Atom(c, old(Mem()), t, slot, old(inKey), out != null))
    {
      hide FloatItem, KeyItem, ValueItem, IntegerItem, SymbolItem, MarshalRead.Big, Reference, LinkItem, TakeLong, TakeBytes;
      ok := false;
      if t == 0x30 {
        ok := Emit(out, Some([0xF6]));
      } else if t == 0x54 {
        ok := Emit(out, Some([0xF5]));
      } else if t == 0x46 {
        ok := Emit(out, Some([0xF4]));
      } else if t == 0x69 {
        var fine, x := Long();
        if fine { ok := Emit(out, Some(IntegerItem(c.host, x))); }
      } else if t == 0x6C {
        ok := Big(out);
      } else if t == 0x66 {
        var fine, p := Take();
        if fine { ok := Emit(out, FloatItem(c.host, p)); }
      } else if t == 0x22 {
        var fine, p := Take();
        if fine {
          Note(slot, Payload(p, Binary));
          ok := Emit(out, StringItem(c.host, inKey, p, Binary));
        }
      } else if t == 0x3A {
        var fine, p := Take();
        if fine {
          syms := syms + [p];
          ok := Emit(out, Some(SymbolItem(p)));
        }
      } else {
        ok := Refer(t, out);
      }
    }

    /** A string's payload is kept in its slot. */
    method Note(slot: Option<nat>, p: Payload)
      requires slot.Some? ==> slot.value < |objs|
      modifies `objs
      ensures Mem() == Noted(old(Mem()), slot, p)
    {
      if slot.Some? {
        objs := objs[slot.value := objs[slot.value].(str := Some(p))];
      }
    }

    /** The ';' and '@' arms. */
    method Refer(t: byte, out: Buffer?) returns (ok: bool)
      requires at <= |c.s| && !noReg
      modifies this, Target(out)
      ensures Did(ok, out, Reference(c, old(Mem()), t, old(inKey), out != null))
    {
      hide SymbolItem, LinkItem, TakeLong;
      var fine, x := Long();
      if !fine || x < 0 {
        return false;
      }
      if t == 0x3B {
        if x >= |syms| {
          return false;
        }
        ok := Emit(out, Some(SymbolItem(syms[x])));
      } else if t != 0x40 || x >= |objs| {
        return false;
      } else {
        ok := Emit(out, LinkItem(c.host, inKey, objs[x]));
      }
    }

    /** The 'l' arm. */
    method Big(out: Buffer?) returns (ok: bool)
      requires at <= |c.s| && !noReg
      modifies this, Target(out)
      ensures Did(ok, out, MarshalRead.Big(c, old(Mem()), out != null))
    {
      hide IntegerItem, ReadLimbs;
      if at >= |c.s| {
        return false;
      }
      var sign := c.s[at];
      if sign != 0x2B && sign != 0x2D {
        return false;
      }
      at := at + 1;
      var x;
      ok, x := Limbs(sign == 0x2D);
      if ok {
        ok := Emit(out, Some(IntegerItem(c.host, x)));
      }
    }

    /** A count of at most four, and that many limbs. */
    method Limbs(negative: bool) returns (ok: bool, x: int)
      requires at <= |c.s|
      modifies `at
      ensures at <= |c.s|
      ensures var r := ReadLimbs(c.s[old(at)..], negative);
        ok == r.Integer? && (ok ==> x == r.x && at == old(at) + r.used)
    {
      hide TakeLong, ReadLong, LittleEndian;
      x := 0;
      ghost var start := at;
      LongIsLong(c.s, at);
      var n;
      ok, n := Long();
      if !ok || n < 1 || 2 * n > |c.s| - at || n > 4 {
        return false, 0;
      }
      ghost var u := at - start;
      assert c.s[start..][u..u + 2 * n] == c.s[at..at + 2 * n];
      var got, mag := Number(2 * n);
      x := Sign(negative, mag);
    }

    /** The 'I' arm: a string with its encoding, or a transparent wrapper. */
    method Ivar(slot: Option<nat>, out: Buffer?) returns (ok: bool)
      requires at <= |c.s| && !noReg && (slot.Some? ==> slot.value < |objs|)
      modifies this, Target(out)
      ensures Did(ok, out, MarshalRead.Construct(c, old(Mem()), 0x49, slot, old(inKey), out != null, old(depth)))
      decreases |c.s| - at, 3
    {
      hide MarshalRead.Wrapped, MarshalRead.Value, IvarPairs;
      if at < |c.s| && c.s[at] == 0x22 {
        ok := Wrapped(slot, out);
        return;
      }
      if inKey {
        return false;
      }
      noReg := true;
      ok := Value(out);
      if ok {
        var enc;
        ok, enc := Ivars();
      }
    }

    /** cm_wrapped_string. */
    method Wrapped(slot: Option<nat>, out: Buffer?) returns (ok: bool)
      requires at < |c.s| && !noReg && (slot.Some? ==> slot.value < |objs|)
      modifies this, Target(out)
      ensures Did(ok, out, MarshalRead.Wrapped(c, old(Mem()), slot, old(inKey), out != null, old(depth)))
      decreases |c.s| - at, 2
    {
      hide TakeBytes, IvarPairs, StringItem;
      at := at + 1;
      var fine, p := Take();
      if !fine {
        return false;
      }
      var enc;
      ok, enc := Ivars();
      if ok {
        Note(slot, Payload(p, enc));
        ok := Emit(out, StringItem(c.host, inKey, p, enc));
      }
    }

    /** cm_ivar_pairs: the values are consumed but still take slots. */
    method Ivars() returns (ok: bool, enc: Encoding)
      requires at <= |c.s| && !noReg
      modifies this
      ensures var r := IvarPairs(c, old(Mem()), old(inKey), old(depth));
        ok == r.Ivars? && (ok ==> enc == r.enc && Mem() == r.m && inKey == old(inKey) && depth == old(depth) && !noReg)
      decreases |c.s| - at, 2
    {
      hide MarshalRead.Value, IvarName, TakeLong;
      enc := Binary;
      var n;
      ok, n := Long();
      if !ok || n < 0 {
        return false, enc;
      }
      ghost var whole := IvarList(c, Mem(), n, Binary, inKey, depth);
      var i := 0;
      while i < n
        invariant 0 <= i <= n && old(at) < at <= |c.s| && !noReg && inKey == old(inKey) && depth == old(depth)
        invariant whole == IvarList(c, Mem(), n - i, enc, inKey, depth)
      {
        var named, name := Name();
        if !named || at >= |c.s| {
          return false, enc;
        }
        enc := EncodingAfter(enc, name, c.s[at]);
        ok := Value(null);
        if !ok {
          return;
        }
        i := i + 1;
      }
      ok := true;
    }

    method Name() returns (ok: bool, name: Span)
      requires at <= |c.s|
      modifies `at, `syms
      ensures at <= |c.s|
      ensures var r := IvarName(c, old(Mem()));
        ok == r.Name? && (ok ==> name == r.text && Mem() == r.m)
    {
      hide TakeLong, TakeBytes;
      ok, name := false, [];
      if at >= |c.s| {
        return;
      }
      var t := c.s[at];
      if t == 0x3A {
        at := at + 1;
        ok, name := Take();
        if ok { syms := syms + [name]; }
      } else if t == 0x3B {
        at := at + 1;
        var fine, x := Long();
        if fine && 0 <= x < |syms| { ok, name := true, syms[x]; }
      }
    }

    /** The '[' arm. */
    method List(out: Buffer?) returns (ok: bool)
      requires at <= |c.s| && !noReg
      modifies this, Target(out)
      ensures Did(ok, out, MarshalRead.Construct(c, old(Mem()), 0x5B, None, old(inKey), out != null, old(depth)))
      decreases |c.s| - at, 3
    {
      hide MarshalRead.Value, MarshalRead.Elements, TakeLong, CborHeads.HeadBytes;
      var n;
      ok, n := Long();
      if !ok || n < 0 {
        return false;
      }
      if out != null {
        out.Put(CborHeads.HeadBytes(4, n));
      }
      depth := depth + 1;
      ok := Elements(n, out);
      if ok {
        depth := depth - 1;
      }
    }

    method Elements(n: nat, out: Buffer?) returns (ok: bool)
      requires at <= |c.s| && !noReg
      modifies this, Target(out)
      ensures Did(ok, out, MarshalRead.Elements(c, old(Mem()), n, old(inKey), out != null, old(depth)))
      decreases |c.s| - at, 2
    {
      hide MarshalRead.Value;
      ghost var emit := out != null;
      ghost var whole, done: seq<byte> := MarshalRead.Elements(c, Mem(), n, inKey, emit, depth), [];
      var i := 0;
      AfterNothing(whole);
      while i < n
        invariant i <= n && old(at) <= at <= |c.s| && !noReg && inKey == old(inKey) && depth == old(depth)
        invariant whole == After(done, MarshalRead.Elements(c, Mem(), n - i, inKey, emit, depth))
        invariant out != null ==> out.bytes == old(out.bytes) + done
      {
        ghost var v := MarshalRead.Value(c, Mem(), inKey, emit, depth, false);
        ok := Value(out);
        if !ok {
          return;
        }
        AfterTwice(done, v.bytes, MarshalRead.Elements(c, v.m, n - i - 1, inKey, emit, depth));
        done := done + v.bytes;
        i := i + 1;
      }
      ok := true;
    }

    /** A map key: the key law holds for the value it starts with. */
    method Key(out: Buffer?) returns (ok: bool)
      requires at <= |c.s| && !noReg
      modifies this, Target(out)
      ensures var r := MarshalRead.Value(c, old(Mem()), true, out != null, old(depth), false);
        && ok == r.Item?
        && (ok ==> Mem() == r.m && depth == old(depth) && inKey == old(inKey) && !noReg)
        && (ok && out != null ==> out.bytes == old(out.bytes) + r.bytes)
      decreases |c.s| - at, 2
    {
      hide MarshalRead.Value;
      var was := inKey;
      inKey := true;
      ok := Value(out);
      inKey := was;
    }

    /** The pairs of a map that is only consumed. */
    method SkipPairs(n: nat) returns (ok: bool)
      requires at <= |c.s| && !noReg
      modifies this
      ensures var r := TableOf(c, old(Mem()), n, old(inKey), false, old(depth));
        ok == r.Rows? && (ok ==> Mem() == r.m && depth == old(depth) && inKey == old(inKey) && !noReg)
      decreases |c.s| - at, 3
    {
      hide MarshalRead.Value;
      ghost var whole := TableOf(c, Mem(), n, inKey, false, depth);
      ghost var keys: seq<seq<byte>>, pairs: seq<seq<byte>> := [], [];
      GatherNothing(whole);
      var i := 0;
      while i < n
        invariant i <= n && old(at) <= at <= |c.s| && !noReg && inKey == old(inKey) && depth == old(depth)
        invariant whole == Gathered(keys, pairs, TableOf(c, Mem(), n - i, inKey, false, depth))
      {
        ghost var k := MarshalRead.Value(c, Mem(), true, false, depth, false);
        ok := Key(null);
        if !ok {
          return;
        }
        ghost var v := MarshalRead.Value(c, Mem(), inKey, false, depth, false);
        ok := Value(null);
        if !ok {
          return;
        }
        GatherOne(keys, pairs, k.bytes, k.bytes + v.bytes, TableOf(c, v.m, n - i - 1, inKey, false, depth));
        keys, pairs := keys + [k.bytes], pairs + [k.bytes + v.bytes];
        i := i + 1;
      }
      ok := true;
    }

    /** The pairs of a map into dst, the keys and the pairs kept apart. */
    method Pairs(n: nat, dst: Buffer) returns (ok: bool, keys: seq<seq<byte>>, pairs: seq<seq<byte>>)
      requires at <= |c.s| && !noReg
      modifies this, dst
      ensures var r := TableOf(c, old(Mem()), n, old(inKey), true, old(depth));
        && ok == r.Rows?
        && (ok ==> Mem() == r.m && depth == old(depth) && inKey == old(inKey) && !noReg && keys == r.keys && pairs == r.pairs)
        && (ok ==> dst.bytes == old(dst.bytes) + Flat(pairs))
      decreases |c.s| - at, 3
    {
      hide MarshalRead.Value, Flat, KeyLead;
      ghost var whole := TableOf(c, Mem(), n, inKey, true, depth);
      keys, pairs := [], [];
      GatherNothing(whole);
      FlatNothing();
      var i := 0;
      while i < n
        invariant i <= n && old(at) <= at <= |c.s| && !noReg && inKey == old(inKey) && depth == old(depth)
        invariant whole == Gathered(keys, pairs, TableOf(c, Mem(), n - i, inKey, true, depth))
        invariant dst.bytes == old(dst.bytes) + Flat(pairs)
      {
        if at >= |c.s| || !KeyLead(c.s[at]) {
          return false, keys, pairs;
        }
        var start := |dst.bytes|;
        ghost var before := dst.bytes;
        ghost var k := MarshalRead.Value(c, Mem(), true, true, depth, false);
        ok := Key(dst);
        if !ok {
          return;
        }
        var key := dst.bytes[start..];
        ghost var v := MarshalRead.Value(c, Mem(), inKey, true, depth, false);
        ok := Value(dst);
        if !ok {
          return;
        }
        var pair := dst.bytes[start..];
        Appended(before, k.bytes, v.bytes);
        GatherOne(keys, pairs, key, pair, TableOf(c, v.m, n - i - 1, inKey, true, depth));
        FlatAppend(pairs, pair);
        FlatGrown(old(dst.bytes), Flat(pairs), pair);
        keys, pairs := keys + [key], pairs + [pair];
        i := i + 1;
      }
      ok := true;
    }

    /** The '{' arm. */
    method Table(out: Buffer?) returns (ok: bool)
      requires at <= |c.s| && !noReg
      modifies this, Target(out)
      ensures Did(ok, out, MarshalRead.Construct(c, old(Mem()), 0x7B, None, old(inKey), out != null, old(depth)))
      decreases |c.s| - at, 3
    {
      hide MarshalRead.Value, TableOf, TakeLong, CborHeads.HeadBytes, Twice, TableItem;
      var n;
      ok, n := Long();
      if !ok || n < 0 {
        return false;
      }
      depth := depth + 1;
      if out == null {
        ok := SkipPairs(n);
      } else {
        ok := EmitTable(n, out);
      }
      if ok {
        depth := depth - 1;
      }
    }

    method EmitTable(n: nat, out: Buffer) returns (ok: bool)
      requires at <= |c.s| && !noReg && n < 0x1_0000_0000
      modifies this, out
      ensures var r := TableOf(c, old(Mem()), n, old(inKey), true, old(depth));
        && ok == (r.Rows? && !Twice(r.keys))
        && (ok ==> Mem() == r.m && depth == old(depth) && inKey == old(inKey) && !noReg)
        && (ok ==> out.bytes == old(out.bytes) + TableItem(r.keys, r.pairs, c.canonical))
      decreases |c.s| - at, 4
    {
      hide MarshalRead.Value, TableOf, TakeLong, CborHeads.HeadBytes, Twice;
      var dst := out;
      if c.canonical && n > 0 {
        dst := new Buffer();
      }
      if !c.canonical {
        out.Put(CborHeads.HeadBytes(5, n));
      }
      var keys, pairs;
      ok, keys, pairs := Pairs(n, dst);
      if !ok {
        return;
      }
      FewKeys(keys);
      if n > 1 {
        var twice := AnyTwice(keys);
        if twice {
          return false;
        }
      }
      if c.canonical {
        assert n == 0 ==> Flat(pairs) == [];
        PutSorted(keys, pairs, out);
      }
    }

    method PutSorted(keys: seq<seq<byte>>, pairs: seq<seq<byte>>, out: Buffer)
      requires |keys| == |pairs| < 0x1_0000_0000
      modifies out
      ensures out.bytes == old(out.bytes) + TableItem(keys, pairs, true)
    {
      hide CborHeads.HeadBytes, CborEncode.OrderOf;
      var order := new nat[|keys|];
      CborWriter.SortOrder(keys, order);
      out.Put(CborHeads.HeadBytes(5, |keys|));
      ghost var head := out.bytes;
      ghost var sorted := order[..];
      var p := 0;
      while p < |keys|
        invariant p <= |keys| && order[..] == sorted
        invariant out.bytes == head + InOrder(pairs, sorted[..p])
      {
        InOrderStep(pairs, sorted, p);
        out.Put(pairs[order[p]]);
        p := p + 1;
      }
      assert sorted[..p] == sorted;
    }
  }

  /** yeptris_cbor_from_marshal. */
  method CborFromMarshal(s: seq<byte>, canonical: bool, host: Host) returns (r: Option<seq<byte>>)
    ensures r == FromMarshal(s, canonical, host)
  {
    hide MarshalRead.Value;
    if |s| < 2 || s[0] != 0x04 || s[1] != 0x08 {
      return None;
    }
    assert s[..2] == [0x04, 0x08];
    var root := new Buffer();
    var w := new Walker(Config(s, canonical, host), 2);
    var ok := w.Value(root);
    if !ok || w.at != |s| {
      return None;
    }
    ghost var bytes := MarshalRead.Value(Config(s, canonical, host), Memory(2, [], []), false, true, 0, false).bytes;
    assert [] + bytes == bytes;
    return Some(root.bytes);
  }

  // ---- the pairs of a map -------------------------------------------------------------------

  function Flat(pairs: seq<seq<byte>>): seq<byte> { InOrder(pairs, CborEncode.Iota(|pairs|)) }

  lemma FlatNothing()
    ensures Flat([]) == []
  {
  }

  lemma FewKeys(keys: seq<seq<byte>>)
    ensures |keys| <= 1 ==> !Twice(keys)
  {
  }

  lemma Appended(before: seq<byte>, k: seq<byte>, v: seq<byte>)
    ensures (before + k)[|before|..] == k && (before + k + v)[|before|..] == k + v && before + k + v == before + (k + v)
  {
  }

  lemma FlatGrown(a: seq<byte>, b: seq<byte>, p: seq<byte>)
    ensures a + b + p == a + (b + p)
  {
  }

  lemma {:induction false} InOrderExtends(pairs: seq<seq<byte>>, p: seq<byte>, order: seq<nat>)
    requires CborEncode.Indices(order, |pairs|)
    ensures InOrder(pairs + [p], order) == InOrder(pairs, order)
    decreases |order|
  {
    if order != [] { InOrderExtends(pairs, p, order[..|order| - 1]); }
  }

  lemma FlatAppend(pairs: seq<seq<byte>>, p: seq<byte>)
    ensures Flat(pairs + [p]) == Flat(pairs) + p
  {
    var n := |pairs|;
    InOrderExtends(pairs, p, CborEncode.Iota(n));
    assert CborEncode.Iota(n + 1)[..n] == CborEncode.Iota(n);
  }

  function PayloadAt(s: seq<byte>, at: nat, k: nat, borrow: nat): Taken
    requires at <= |s|
  {
    if at + k > |s| then Cut else Taken(LittleEndian(s[at..at + k]) - borrow, at + k)
  }

  lemma LongAt(s: seq<byte>, at: nat)
    requires at < |s|
    ensures var b := s[at];
      TakeLong(s, at)
      == if b == 0 then Taken(0, at + 1)
         else if b <= 4 then PayloadAt(s, at + 1, b, 0)
         else if b <= 127 then Taken(b - 5, at + 1)
         else if b == 128 then Cut
         else if b <= 250 then Taken(b as int - 251, at + 1)
         else PayloadAt(s, at + 1, 256 - b, Power256(256 - b))
  {
    LongIsLong(s, at);
    var t, b := s[at..], s[at];
    if 1 <= b <= 4 && |t| > b { assert t[1..1 + b] == s[at + 1..at + 1 + b]; }
    if b > 250 && |t| > 256 - b { assert t[1..1 + (256 - b)] == s[at + 1..at + 1 + (256 - b)]; }
    hide LittleEndian;
  }

  lemma NothingToTake(s: seq<byte>, at: nat)
    requires at == |s|
    ensures TakeLong(s, at) == Cut
  {
  }

  lemma LongIsLong(s: seq<byte>, at: nat)
    requires at <= |s|
    ensures TakeLong(s, at) == match ReadLong(s[at..]) case Long(x, u) => Taken(x, at + u) case _ => Cut
  {
    hide ReadLong;
    LongIsSmall(s[at..]);
  }

  lemma {:induction false} NextByte(s: seq<byte>, b: byte)
    ensures LittleEndian(s + [b]) == LittleEndian(s) + b * Power256(|s|)
  {
    if s == [] {
      assert [b][1..] == [] && s + [b] == [b];
    } else {
      NextByte(s[1..], b);
      assert (s + [b])[1..] == s[1..] + [b];
      Later(b, Power256(|s| - 1));
    }
  }

  lemma Later(b: nat, p: nat)
    ensures b * (256 * p) == 256 * (b * p)
  {
  }
}
