/** The stream against the records: one chunk of literal bytes for each record, in order. */
module MarshalRecords {
  import opened Bytes
  import opened MarshalNumber
  import opened MarshalWrite

  // ---- lengths --------------------------------------------------------------------------

  /** A length as the stream writes it. */
  function Length(n: nat): seq<byte>
    requires n < 0x1_0000_0000
  {
    if n == 0 then [0]
    else if n <= 122 then [n + 5]
    else if n < 0x100 then [1, n]
    else if n < 0x1_0000 then [2, n % 256, n / 256]
    else if n < 0x100_0000 then [3, n % 256, n / 256 % 256, n / 65536]
    else [4, n % 256, n / 256 % 256, n / 65536 % 256, n / 16777216]
  }

  lemma LengthIsLong(n: nat)
    requires n < 0x1_0000_0000
    ensures LongBytes(n) == Length(n)
  {
    if n > 122 {
      LongIs(n);
      WidthIs(n);
      Payload(n, Width(n));
      hide ToLittleEndian, Width, LongBytes;
      LowBytes(n);
    }
  }

  lemma LongIs(n: nat)
    requires 122 < n < 0x1_0000_0000
    ensures Width(n) <= 4 && LongBytes(n) == [Width(n)] + ToLittleEndian(n, Width(n))
  {
    WidthIs(n);
  }

  lemma LowBytes(n: nat)
    ensures n < 0x100 ==> n % 256 == n
    ensures n < 0x1_0000 ==> n / 256 % 256 == n / 256
    ensures n < 0x100_0000 ==> n / 65536 % 256 == n / 65536
    ensures n < 0x1_0000_0000 ==> n / 16777216 % 256 == n / 16777216
  {}

  lemma WidthIs(n: nat)
    requires 0 < n < 0x1_0000_0000
    ensures Width(n) == if n < 0x100 then 1 else if n < 0x1_0000 then 2 else if n < 0x100_0000 then 3 else 4
  {}

  lemma Payload(n: nat, k: nat)
    requires 1 <= k <= 4
    ensures ToLittleEndian(n, k) ==
      if k == 1 then [n % 256] else if k == 2 then [n % 256, n / 256 % 256]
      else if k == 3 then [n % 256, n / 256 % 256, n / 65536 % 256]
      else [n % 256, n / 256 % 256, n / 65536 % 256, n / 16777216 % 256]
  {
    assert n / 256 / 256 == n / 65536 && n / 65536 / 256 == n / 16777216;
    var a, b, c := n / 256, n / 65536, n / 16777216;
    assert ToLittleEndian(a, k - 1) == if k == 1 then [] else [a % 256] + ToLittleEndian(b, k - 2);
  }

  // ---- scalars ----------------------------------------------------------------------------

  predicate StringSpelt(text: seq<byte>, b: seq<byte>)
    requires |text| < 0x1_0000_0000
  {
    b == [0x49, 0x22] + Length(|text|) + text + [0x06, 0x3A, 0x06, 0x45, 0x54]
  }

  /** compat 1.1 leaves a float a string when its text holds neither a point nor a colon. */
  predicate Pointed(text: seq<byte>) { exists k :: 0 <= k < |text| && (text[k] == 0x2E || text[k] == 0x3A) }

  /** A scalar's bytes, over its record's text and the flag. */
  predicate ScalarSpelt(r: Record, compat: bool, b: seq<byte>)
    requires Storable(r)
  {
    match r.kind
    case Null => b == [0x30]
    case Bool => if |r.text| == 1 then StringSpelt(r.text, b) else b == [if r.b then 0x54 else 0x46]
    case Int =>
      if -0x4000_0000 < r.p < 0x4000_0000 then |b| > 1 && b[0] == 0x69 && (0 <= r.p ==> b == [0x69] + Length(r.p))
      else |b| > 2 && b[0] == 0x6C && b[1] == if r.p < 0 then 0x2D else 0x2B
    case Float =>
      if !compat || Pointed(r.text) then b == [0x66] + Length(|r.repr|) + r.repr else StringSpelt(r.text, b)
    case Str =>
      if r.b && 18 < |r.text| < 1300 && PsychInt(r.text) then |b| > 2 && b[0] == 0x6C && b[1] == if r.text[0] == 0x2D then 0x2D else 0x2B
      else if r.b && |r.text| > 1 && r.text[0] == 0x3A && r.text[1] != 0x3A then b == [0x3A] + Length(|r.text| - 1) + r.text[1..]
      else StringSpelt(r.text, b)
    case _ => false
  }

  predicate IsScalar(r: Record) { r.kind.Null? || r.kind.Bool? || r.kind.Int? || r.kind.Float? || r.kind.Str? }

  lemma PointedIsFloat(text: seq<byte>)
    ensures FloatText(true, text) <==> Pointed(text)
  {
    if FloatText(true, text) {
      if text[0] == 0x2E { assert 0 <= 0 < |text| && text[0] == 0x2E; }
      else if 0x2E in text { var k :| 0 <= k < |text| && text[k] == 0x2E; }
      else { var k :| 0 <= k < |text| && text[k] == 0x3A; }
    }
  }

  lemma ScalarSpells(r: Record, compat: bool, st: State)
    requires Storable(r) && IsScalar(r)
    ensures WriteScalar(r, compat, st).Written? && ScalarSpelt(r, compat, WriteScalar(r, compat, st).bytes)
  {
    hide LongBytes, LimbCount, ToLittleEndian, PsychInt, BignumValue, Pointed, Length;
    LengthIsLong(|r.text|);
    LengthIsLong(|r.repr|);
    if |r.text| > 0 { LengthIsLong(|r.text| - 1); }
    if 0 <= r.p < 0x4000_0000 { LengthIsLong(r.p); }
    PointedIsFloat(r.text);
    if r.kind.Int? && -0x4000_0000 < r.p < 0x4000_0000 { LongNotEmpty(r.p); }
  }

  lemma LongNotEmpty(x: int)
    requires INT64_MIN < x < -INT64_MIN
    ensures |LongBytes(x)| > 0
  {}

  // ---- the stream ----------------------------------------------------------------------------

  /** One record's bytes; a link is an object's number or a scalar written again. */
  ghost predicate ChunkIs(r: Record, compat: bool, b: seq<byte>) {
    match r.kind
    case SeqOpen => exists n: nat :: n < 0x1_0000_0000 && b == [0x5B] + Length(n)
    case MapOpen => exists n: nat :: n < 0x1_0000_0000 && b == [0x7B] + Length(n)
    case Close | Anchor => b == []
    case Alias =>
      || (exists id: nat :: id < 0x1_0000_0000 && b == [0x40] + Length(id))
      || (exists copied: Record :: Storable(copied) && ScalarSpelt(copied, compat, b))
    case _ => Storable(r) && ScalarSpelt(r, compat, b)
  }

  function Flat(chunks: seq<seq<byte>>): seq<byte> {
    if chunks == [] then [] else chunks[0] + Flat(chunks[1..])
  }

  lemma {:induction false} FlatJoin(a: seq<seq<byte>>, b: seq<seq<byte>>)
    ensures Flat(a + b) == Flat(a) + Flat(b)
  {
    if a == [] {
      assert a + b == b;
    } else {
      assert (a + b)[1..] == a[1..] + b;
      FlatJoin(a[1..], b);
    }
  }

  lemma FlatOne(c: seq<byte>)
    ensures Flat([c]) == c
  {
    assert [c][1..] == [];
  }

  /** The records from i up to j, chunk by chunk. */
  ghost predicate Chunked(recs: seq<Record>, i: nat, j: nat, compat: bool, bytes: seq<byte>, chunks: seq<seq<byte>>) {
    i <= j <= |recs| && |chunks| == j - i && Flat(chunks) == bytes && forall k :: 0 <= k < j - i ==> ChunkIs(recs[i + k], compat, chunks[k])
  }

  lemma ChunksJoin(recs: seq<Record>, i: nat, j: nat, k: nat, compat: bool, a: seq<byte>, ca: seq<seq<byte>>, b: seq<byte>, cb: seq<seq<byte>>)
    requires Chunked(recs, i, j, compat, a, ca) && Chunked(recs, j, k, compat, b, cb)
    ensures Chunked(recs, i, k, compat, a + b, ca + cb)
  {
    hide ChunkIs;
    FlatJoin(ca, cb);
    forall x | 0 <= x < k - i ensures ChunkIs(recs[i + x], compat, (ca + cb)[x]) {
      if x >= j - i { assert ChunkIs(recs[j + (x - (j - i))], compat, cb[x - (j - i)]); }
    }
  }

  lemma OneChunk(recs: seq<Record>, i: nat, compat: bool, b: seq<byte>)
    requires i < |recs| && ChunkIs(recs[i], compat, b)
    ensures Chunked(recs, i, i + 1, compat, b, [b])
  {
    hide ChunkIs;
    FlatOne(b);
  }

  lemma {:induction false} ValueChunks(recs: seq<Record>, counts: seq<nat>, compat: bool, i: nat, st: State) returns (chunks: seq<seq<byte>>)
    requires Counted(recs, counts) && i < |recs| && At(recs, i, st) && WriteValue(recs, counts, compat, i, st).Emitted?
    ensures var e := WriteValue(recs, counts, compat, i, st); Chunked(recs, i, e.next, compat, e.bytes, chunks)
    decreases |recs| - i, 1
  {
    hide WriteBody, Counted, At, Chunked;
    if !recs[i].kind.Anchor? {
      chunks := BodyChunks(recs, counts, compat, i, st);
    } else {
      AnnounceKeeps(recs, counts, i, st);
      var e := WriteValue(recs, counts, compat, i + 1, Announce(st, recs[i].text));
      var rest := ValueChunks(recs, counts, compat, i + 1, Announce(st, recs[i].text));
      OneChunk(recs, i, compat, []);
      ChunksJoin(recs, i, i + 1, e.next, compat, [], [[]], e.bytes, rest);
      assert [] + e.bytes == e.bytes;
      chunks := [[]] + rest;
    }
  }

  lemma AnnounceKeeps(recs: seq<Record>, counts: seq<nat>, i: nat, st: State)
    requires Counted(recs, counts) && i < |recs| && At(recs, i, st) && recs[i].kind.Anchor?
    ensures At(recs, i + 1, Announce(st, recs[i].text))
  {
    AnnounceKeepsAt(recs, i, st, recs[i].text);
  }

  lemma {:induction false} BodyChunks(recs: seq<Record>, counts: seq<nat>, compat: bool, i: nat, st: State) returns (chunks: seq<seq<byte>>)
    requires Counted(recs, counts) && i < |recs| && At(recs, i, st) && WriteBody(recs, counts, compat, i, st).Emitted?
    requires !recs[i].kind.Anchor?
    ensures var e := WriteBody(recs, counts, compat, i, st); Chunked(recs, i, e.next, compat, e.bytes, chunks)
    decreases |recs| - i, 0
  {
    hide WriteElements, At, Chunked, LongBytes, WriteScalar, WriteAlias, ChunkIs;
    var e := WriteBody(recs, counts, compat, i, st);
    if IsOpen(recs[i]) {
      OpensMono(recs, i + 1, |recs|);
      EnterKeepsAt(recs, i, st);
      var n := CountAt(recs, counts, i, st);
      var inner := WriteElements(recs, counts, compat, i + 1, Enter(st));
      var rest := ElementsChunks(recs, counts, compat, i + 1, Enter(st));
      var open := [Bracket(recs[i].kind)] + LongBytes(n);
      OpeningChunk(recs[i], compat, n);
      OneChunk(recs, i, compat, open);
      ClosingChunk(recs[inner.next], compat);
      OneChunk(recs, inner.next, compat, []);
      ChunksJoin(recs, i, i + 1, inner.next, compat, open, [open], inner.bytes, rest);
      ChunksJoin(recs, i, inner.next, inner.next + 1, compat, open + inner.bytes, [open] + rest, [], [[]]);
      assert open + inner.bytes + [] == e.bytes;
      chunks := [open] + rest + [[]];
    } else {
      ScalarChunk(recs, counts, compat, i, st);
      OneChunk(recs, i, compat, e.bytes);
      chunks := [e.bytes];
    }
  }

  lemma CountAt(recs: seq<Record>, counts: seq<nat>, i: nat, st: State) returns (n: nat)
    requires Counted(recs, counts) && i < |recs| && At(recs, i, st) && IsOpen(recs[i])
    ensures st.openSeq < |counts| && n == counts[st.openSeq] < 0x1_0000_0000
  {
    OpensMono(recs, i + 1, |recs|);
    n := counts[st.openSeq];
  }

  lemma OpeningChunk(r: Record, compat: bool, n: nat)
    requires IsOpen(r) && n < 0x1_0000_0000
    ensures ChunkIs(r, compat, [Bracket(r.kind)] + LongBytes(n))
  {
    hide LongBytes, Length;
    LengthIsLong(n);
  }

  lemma ClosingChunk(r: Record, compat: bool)
    requires r.kind.Close?
    ensures ChunkIs(r, compat, [])
  {}

  lemma ScalarChunk(recs: seq<Record>, counts: seq<nat>, compat: bool, i: nat, st: State)
    requires Counted(recs, counts) && i < |recs| && At(recs, i, st) && !IsOpen(recs[i]) && !recs[i].kind.Anchor?
    requires WriteBody(recs, counts, compat, i, st).Emitted?
    ensures var e := WriteBody(recs, counts, compat, i, st); e.next == i + 1 && ChunkIs(recs[i], compat, e.bytes)
  {
    hide WriteScalar, ScalarSpelt, Length, LongBytes;
    var r := recs[i];
    if r.kind.Alias? {
      AliasChunk(r.text, compat, st);
    } else {
      assert Storable(r);
      OnlyScalars(r, compat, st);
      ScalarSpells(r, compat, st);
    }
  }

  lemma OnlyScalars(r: Record, compat: bool, st: State)
    requires Storable(r)
    ensures WriteScalar(r, compat, st).Written? ==> IsScalar(r)
  {
    hide LongBytes, LimbCount, PsychInt, BignumValue;
  }

  lemma AliasChunk(name: seq<byte>, compat: bool, st: State)
    requires Sound(st) && WriteAlias(name, compat, st).Written?
    ensures var b := WriteAlias(name, compat, st).bytes;
      || (exists id: nat :: id < 0x1_0000_0000 && b == [0x40] + Length(id))
      || (exists copied: Record :: Storable(copied) && ScalarSpelt(copied, compat, b))
  {
    hide WriteScalar, ScalarSpelt, Length, LongBytes;
    match Find(st.anchors, name)
    case Pending =>
    case Object(id) => LengthIsLong(id);
    case Copy(rec) =>
      OnlyScalars(rec, compat, st);
      ScalarSpells(rec, compat, st);
  }

  lemma {:induction false} ElementsChunks(recs: seq<Record>, counts: seq<nat>, compat: bool, i: nat, st: State) returns (chunks: seq<seq<byte>>)
    requires Counted(recs, counts) && At(recs, i, st) && WriteElements(recs, counts, compat, i, st).Emitted?
    ensures var e := WriteElements(recs, counts, compat, i, st); Chunked(recs, i, e.next, compat, e.bytes, chunks)
    decreases |recs| - i, 2
  {
    hide WriteValue, Counted, At, Chunked;
    if recs[i].kind.Close? {
      NoChunks(recs, i, compat);
      chunks := [];
    } else {
      var e := WriteValue(recs, counts, compat, i, st);
      var first := ValueChunks(recs, counts, compat, i, st);
      var rest := ElementsChunks(recs, counts, compat, e.next, e.st);
      var r := WriteElements(recs, counts, compat, e.next, e.st);
      ChunksJoin(recs, i, e.next, r.next, compat, e.bytes, first, r.bytes, rest);
      chunks := first + rest;
    }
  }

  lemma NoChunks(recs: seq<Record>, i: nat, compat: bool)
    requires i <= |recs|
    ensures Chunked(recs, i, i, compat, [], [])
  {}

  /** A stream is the header and one chunk for each record of the first value. */
  ghost predicate Spells(recs: seq<Record>, compat: bool, bytes: seq<byte>) {
    exists n: nat, chunks: seq<seq<byte>> ::
      0 < n <= |recs| && |bytes| >= 2 && bytes[..2] == [0x04, 0x08] && Chunked(recs, 0, n, compat, bytes[2..], chunks)
  }

  lemma StreamSpells(recs: seq<Record>, compat: bool)
    requires AllStorable(recs) && recs != [] && Marshal(recs, compat).Stream?
    ensures Spells(recs, compat, Marshal(recs, compat).bytes)
  {
    hide WriteValue, Counted, Chunked, Counts, AnyRejected;
    CountsFit(recs);
    Starts(recs);
    var e := WriteValue(recs, Counts(recs), compat, 0, START);
    var chunks := ValueChunks(recs, Counts(recs), compat, 0, START);
    assert ([0x04, 0x08] + e.bytes)[..2] == [0x04, 0x08] && ([0x04, 0x08] + e.bytes)[2..] == e.bytes;
    assert Chunked(recs, 0, e.next, compat, Marshal(recs, compat).bytes[2..], chunks);
  }

  lemma Starts(recs: seq<Record>)
    ensures At(recs, 0, START)
  {}
}
