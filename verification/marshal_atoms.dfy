/** What the transcoder takes of a stream at one place, in terms of the bytes that stand there. */
module MarshalAtoms {
  import opened Wrappers
  import opened Bytes
  import opened MarshalNumber
  import opened MarshalRead
  import MarshalRecords
  import CborHeads
  import CborValues
  import CborLiterals

  // ---- longs ---------------------------------------------------------------------------

  /** The number of the n bytes from place i on, the lowest first. */
  function Low(s: seq<byte>, i: nat, n: nat): nat
    requires i + n <= |s| && 1 <= n <= 5
  {
    s[i] as int
    + (if n > 1 then 0x100 * s[i + 1] as int else 0)
    + (if n > 2 then 0x1_0000 * s[i + 2] as int else 0)
    + (if n > 3 then 0x100_0000 * s[i + 3] as int else 0)
    + (if n > 4 then 0x1_0000_0000 * s[i + 4] as int else 0)
  }

  /** A lead of 1 to 4 and of 251 to 255 is followed by that many bytes; 128 is no lead, and any other one is a number. */
  function LongAt(s: seq<byte>, i: nat): Taken
    requires i <= |s|
  {
    if i == |s| || s[i] == 128 then Cut
    else if s[i] == 0 then Taken(0, i + 1)
    else if 5 <= s[i] <= 127 then Taken(s[i] - 5, i + 1)
    else if 129 <= s[i] <= 250 then Taken(s[i] as int - 251, i + 1)
    else
      var n := if s[i] <= 4 then s[i] else 256 - s[i];
      if |s| - i - 1 < n then Cut
      else if s[i] <= 4 then Taken(Low(s, i + 1, n), i + 1 + n)
      else
        var base := if n == 1 then 0x100 else if n == 2 then 0x1_0000 else if n == 3 then 0x100_0000 else if n == 4 then 0x1_0000_0000 else 0x100_0000_0000;
        Taken(Low(s, i + 1, n) - base, i + 1 + n)
  }

  lemma LongExactly(s: seq<byte>, i: nat)
    requires i <= |s|
    ensures TakeLong(s, i) == LongAt(s, i)
  {
    hide LittleEndian, Power256, Low;
    if i < |s| && (1 <= s[i] <= 4 || s[i] > 250) {
      var n := if s[i] <= 4 then s[i] else 256 - s[i];
      Widths();
      if |s| - i - 1 >= n {
        assert s[i..][1..1 + n] == s[i + 1..i + 1 + n];
        LowIs(s, i + 1, n);
      }
    }
  }

  lemma Widths()
    ensures Power256(1) == 0x100 && Power256(2) == 0x1_0000 && Power256(3) == 0x100_0000
    ensures Power256(4) == 0x1_0000_0000 && Power256(5) == 0x100_0000_0000
  {
    Powers();
    assert Power256(3) == 256 * Power256(2) && Power256(5) == 256 * Power256(4);
  }

  lemma LowIs(s: seq<byte>, i: nat, n: nat)
    requires i + n <= |s| && 1 <= n <= 5
    ensures LittleEndian(s[i..i + n]) == Low(s, i, n)
  {
    hide LittleEndian;
    LowFirst(s, i, i + n);
    if n > 1 { LowFirst(s, i + 1, i + n); }
    if n > 2 { LowFirst(s, i + 2, i + n); }
    if n > 3 { LowFirst(s, i + 3, i + n); }
    if n > 4 { LowFirst(s, i + 4, i + n); }
  }

  lemma LowFirst(s: seq<byte>, i: nat, j: nat)
    requires i < j <= |s|
    ensures LittleEndian(s[i..j]) == s[i] + 256 * LittleEndian(s[i + 1..j])
    ensures i + 1 == j ==> LittleEndian(s[i + 1..j]) == 0
  {
    assert s[i..j][1..] == s[i + 1..j];
  }

  /** A length, then that many bytes. */
  lemma BytesExactly(s: seq<byte>, i: nat, p: Span)
    requires i <= |s| && Stands(s, i, MarshalRecords.Length(|p|) + p)
    ensures TakeBytes(s, i) == Cutting(p, i + |MarshalRecords.Length(|p|)| + |p|)
  {
    hide LongBytes, TakeLong, MarshalRecords.Length;
    MarshalRecords.LengthIsLong(|p|);
    StandsSplit(s, i, MarshalRecords.Length(|p|), p);
    LengthTaken(s, i, |p|);
  }

  lemma LengthTaken(s: seq<byte>, i: nat, n: nat)
    requires n < 0x1_0000_0000 && Stands(s, i, MarshalRecords.Length(n))
    ensures TakeLong(s, i) == Taken(n, i + |MarshalRecords.Length(n)|)
  {
    hide LongBytes, ReadLong, MarshalRecords.Length;
    MarshalRecords.LengthIsLong(n);
    var b := MarshalRecords.Length(n);
    assert s[i..] == b + s[i + |b|..];
    LongRoundTrip(n, s[i + |b|..]);
  }

  // ---- values that hold no others ------------------------------------------------------------

  /** The value's bytes, and its place behind it with one more slot, which holds them. */
  predicate Slotted(r: Item, m: Memory, at: nat, kind: byte, str: Option<Payload>) {
    r.Item? && r.m == m.(at := at, objs := m.objs + [Memo(kind, str, Some(r.bytes))])
  }

  /** What stands at a lead of an atom that takes a slot is made of the bytes behind it. */
  lemma SlotTaken(c: Config, m: Memory, inKey: bool, depth: nat)
    requires m.at < |c.s| && c.s[m.at] in {0x22, 0x66, 0x6C} && depth < 512
    ensures var r, a := Value(c, m, inKey, true, depth, false), Atom(c, Opened(c, m), c.s[m.at], Some(|m.objs|), inKey, true);
      if a.Declined? then r.Declined?
      else r == Item(a.bytes, a.m.(objs := a.m.objs[|m.objs| := a.m.objs[|m.objs|].(span := Some(a.bytes))]))
  {
    hide Atom;
  }

  /** Behind the lead byte, with the slot taken. */
  function Opened(c: Config, m: Memory): Memory
    requires m.at < |c.s|
  {
    m.(at := m.at + 1, objs := m.objs + [Memo(c.s[m.at], None, None)])
  }

  /** nil, true and false; 512 containers may be open around a value. */
  lemma ConstantTaken(c: Config, m: Memory, inKey: bool, depth: nat)
    requires m.at < |c.s| && c.s[m.at] in {0x30, 0x54, 0x46}
    ensures Value(c, m, inKey, true, depth, false) ==
      if depth >= 512 then Declined
      else Item([if c.s[m.at] == 0x30 then 0xF6 else if c.s[m.at] == 0x54 then 0xF5 else 0xF4], m.(at := m.at + 1))
  {
  }

  /** An integer is the shortest head of its number, and takes no slot. */
  lemma IntegerTaken(c: Config, m: Memory, inKey: bool, depth: nat)
    requires m.at < |c.s| && c.s[m.at] == 0x69 && depth < 512
    ensures var r := Value(c, m, inKey, true, depth, false);
      match LongAt(c.s, m.at + 1)
      case Cut => r.Declined?
      case Taken(x, k) =>
        r.Item? && r.m == m.(at := k) && CborLiterals.HeadTold(if x < 0 then 1 else 0, if x < 0 then -1 - x else x, r.bytes)
  {
    hide TakeLong, CborHeads.IntBytes, CborLiterals.HeadTold, LongAt;
    LongExactly(c.s, m.at + 1);
    match LongAt(c.s, m.at + 1)
    case Cut =>
    case Taken(x, k) =>
      LongBounds(c.s, m.at + 1);
      HeadIs(x);
  }

  lemma LongBounds(s: seq<byte>, i: nat)
    requires i <= |s|
    ensures LongAt(s, i).Taken? ==> -0x100_0000_0000 <= LongAt(s, i).x < 0x1_0000_0000
  {}

  lemma HeadIs(x: int)
    requires -0x8000_0000_0000_0000 <= x < 0x8000_0000_0000_0000
    ensures CborLiterals.HeadTold(if x < 0 then 1 else 0, if x < 0 then -1 - x else x, CborHeads.IntBytes(x))
  {
    hide CborLiterals.HeadTold, CborHeads.HeadBytes;
    if x < 0 { CborLiterals.HeadWritten(1, -1 - x); } else { CborLiterals.HeadWritten(0, x); }
  }

  /** A bare string is binary: its payload stays in its slot for later links. */
  lemma RawTaken(c: Config, m: Memory, p: Span, inKey: bool, depth: nat)
    requires Stands(c.s, m.at, [0x22] + (MarshalRecords.Length(|p|) + p)) && depth < 512
    ensures var r, b := Value(c, m, inKey, true, depth, false), if inKey then KeyItem(c.host, p) else ValueItem(p, Binary);
      if b.None? then r.Declined?
      else r.Item? && r.bytes == b.value && Slotted(r, m, m.at + 1 + |MarshalRecords.Length(|p|)| + |p|, 0x22, Some(Payload(p, Binary)))
  {
    hide Value, TakeBytes, MarshalRecords.Length, KeyItem, ValueItem;
    StandsSplit(c.s, m.at, [0x22], MarshalRecords.Length(|p|) + p);
    assert c.s[m.at] == c.s[m.at..m.at + 1][0];
    BytesExactly(c.s, m.at + 1, p);
    hide Stands;
    SlotTaken(c, m, inKey, depth);
  }

  /** A float of up to 63 characters that neither spells a non-finite nor rounds to one. */
  lemma FloatTaken(c: Config, m: Memory, p: Span, inKey: bool, depth: nat)
    requires Stands(c.s, m.at, [0x66] + (MarshalRecords.Length(|p|) + p)) && depth < 512
    ensures var r := Value(c, m, inKey, true, depth, false);
      if |p| > 63 || p in [[0x6E, 0x61, 0x6E], [0x69, 0x6E, 0x66], [0x2D, 0x69, 0x6E, 0x66]] || c.host.double(p).None? then r.Declined?
      else
        && r.Item? && r.bytes == CborHeads.FloatBytes(c.host.double(p).value)
        && Slotted(r, m, m.at + 1 + |MarshalRecords.Length(|p|)| + |p|, 0x66, None)
  {
    hide Value, TakeBytes, MarshalRecords.Length, CborHeads.FloatBytes;
    StandsSplit(c.s, m.at, [0x66], MarshalRecords.Length(|p|) + p);
    assert c.s[m.at] == c.s[m.at..m.at + 1][0];
    BytesExactly(c.s, m.at + 1, p);
    hide Stands;
    SlotTaken(c, m, inKey, depth);
  }

  /** A link takes what its slot holds: a string is spelt again for the place it stands in, and no container is taken. */
  lemma LinkTaken(c: Config, m: Memory, x: nat, inKey: bool, depth: nat)
    requires x < 0x1_0000_0000 && Stands(c.s, m.at, [0x40] + MarshalRecords.Length(x)) && depth < 512
    ensures var r := Value(c, m, inKey, true, depth, false);
      if x >= |m.objs| then r.Declined?
      else r == LinkOf(c.host, m.objs[x], inKey, m.(at := m.at + 1 + |MarshalRecords.Length(x)|))
  {
    hide TakeLong, MarshalRecords.Length, KeyItem, ValueItem;
    StandsSplit(c.s, m.at, [0x40], MarshalRecords.Length(x));
    assert c.s[m.at] == c.s[m.at..m.at + 1][0];
    LengthTaken(c.s, m.at + 1, x);
  }

  function LinkOf(host: Host, o: Memo, inKey: bool, m: Memory): Item {
    if o.str.Some? then
      var p := o.str.value;
      var b := if inKey then KeyItem(host, p.bytes) else ValueItem(p.bytes, p.enc);
      if b.None? then Declined else Item(b.value, m)
    else if o.span.None? || o.span.value == [] || o.kind in {0x5B, 0x7B} then Declined
    else Item(o.span.value, m)
  }

  lemma BigReads(c: Config, m: Memory, negative: bool, b: seq<byte>)
    requires 2 <= |b| < 0x1_0000_0000 && |b| % 2 == 0
    requires Stands(c.s, m.at, [0x6C, if negative then 0x2D else 0x2B] + (MarshalRecords.Length(|b| / 2) + b))
    ensures m.at < |c.s| && c.s[m.at] == 0x6C
    ensures Big(c, Opened(c, m), true) ==
      if |b| > 8 then Declined
      else Item(IntegerItem(c.host, Sign(negative, LittleEndian(b))), Opened(c, m).(at := m.at + 2 + |MarshalRecords.Length(|b| / 2)| + |b|))
  {
    hide ReadLong, ReadLimbs, TakeLong, MarshalRecords.Length, IntegerItem, LittleEndian;
    var n, at := |b| / 2, m.at + 2;
    var long := MarshalRecords.Length(n);
    StandsSplit(c.s, m.at, [0x6C, if negative then 0x2D else 0x2B], long + b);
    assert c.s[m.at] == c.s[m.at..at][0] && c.s[m.at + 1] == c.s[m.at..at][1];
    StandsSplit(c.s, at, long, b);
    LengthTaken(c.s, at, n);
    Limbs(c.s, at, negative, b, |long|);
  }

  /** A big integer of up to four limbs is its number, or the double it rounds to past int64. It takes a slot. */
  lemma BigTaken(c: Config, m: Memory, negative: bool, b: seq<byte>, inKey: bool, depth: nat)
    requires 2 <= |b| < 0x1_0000_0000 && |b| % 2 == 0 && depth < 512
    requires Stands(c.s, m.at, [0x6C, if negative then 0x2D else 0x2B] + (MarshalRecords.Length(|b| / 2) + b))
    ensures var r, v := Value(c, m, inKey, true, depth, false), LittleEndian(b);
      var x := if negative then 0 - v else v;
      if |b| > 8 then r.Declined?
      else
        && Slotted(r, m, m.at + 2 + |MarshalRecords.Length(|b| / 2)| + |b|, 0x6C, None)
        && if -0x8000_0000_0000_0000 <= x < 0x8000_0000_0000_0000 then CborLiterals.HeadTold(if x < 0 then 1 else 0, if x < 0 then -1 - x else x, r.bytes)
           else r.bytes == CborHeads.FloatBytes(c.host.rounded(x))
  {
    hide Value, Big, Stands, MarshalRecords.Length, IntegerItem, CborHeads.FloatBytes, LittleEndian, CborLiterals.HeadTold;
    BigReads(c, m, negative, b);
    SlotTaken(c, m, inKey, depth);
    BigBytes(c.host, Sign(negative, LittleEndian(b)));
  }

  lemma BigBytes(host: Host, x: int)
    ensures if -0x8000_0000_0000_0000 <= x < 0x8000_0000_0000_0000 then
        CborLiterals.HeadTold(if x < 0 then 1 else 0, if x < 0 then -1 - x else x, IntegerItem(host, x))
      else IntegerItem(host, x) == CborHeads.FloatBytes(host.rounded(x))
  {
    hide CborHeads.FloatBytes, CborHeads.IntBytes, CborLiterals.HeadTold;
    if INT64_MIN <= x < -INT64_MIN { HeadIs(x); }
  }

  lemma Limbs(s: seq<byte>, at: nat, negative: bool, b: seq<byte>, used: nat)
    requires at <= |s| && |b| >= 2 && |b| % 2 == 0 && TakeLong(s, at) == Taken(|b| / 2, at + used) && Stands(s, at + used, b)
    ensures ReadLimbs(s[at..], negative) == if |b| > 8 then Refused else Integer(Sign(negative, LittleEndian(b)), used + |b|)
  {
    hide ReadLong, LittleEndian;
    assert s[at..][used..used + |b|] == s[at + used..at + used + |b|];
  }

  // ---- keys ----------------------------------------------------------------------------------

  /** A pair whose key is no string, symbol, link, integer or float is refused. */
  lemma KeyLeads(c: Config, m: Memory, n: nat, inKey: bool, depth: nat)
    requires n > 0 && m.at < |c.s| && c.s[m.at] !in {0x22, 0x49, 0x3A, 0x3B, 0x40, 0x69, 0x6C, 0x66}
    ensures TableOf(c, m, n, inKey, true, depth) == NoRows
  {}
}
