/** One tape row in one 64-bit word, what unpacking gives back, and which rows are keys. */
module JsonRecord {
  import opened Wrappers
  import opened JsonWalk

  // ---- the word -----------------------------------------------------------------------------

  const TWO_24: nat := 0x100_0000
  const TWO_32: nat := 0x1_0000_0000

  /** The kind byte. */
  function Code(k: Kind): (c: nat)
    ensures c < 256
  {
    match k
    case Doc => 0 case Nil => 1 case Yes => 2 case No => 3 case IntNum => 4
    case FloatNum => 5 case Str => 6 case SeqOpen => 7 case MapOpen => 8 case Close => 9
  }

  function KindOf(c: nat): Kind {
    if c == 0 then Doc else if c == 1 then Nil else if c == 2 then Yes else if c == 3 then No else if c == 4 then IntNum
    else if c == 5 then FloatNum else if c == 6 then Str else if c == 7 then SeqOpen else if c == 8 then MapOpen else Close
  }

  /** Bitwise or. */
  function Or(a: nat, b: nat): (r: nat)
    ensures b == 0 ==> r == a
    ensures r <= a + b
  {
    if b == 0 then a
    else if a == 0 then b
    else (if a % 2 == 1 || b % 2 == 1 then 1 else 0) + 2 * Or(a / 2, b / 2)
  }

  /** off << 32 | len << 8 | kind: nothing masks the length, so past 24 bits it runs into the offset. */
  function Pack(r: Rec): nat {
    Or(r.off, r.len / TWO_24) * TWO_32 + r.len % TWO_24 * 256 + Code(r.kind)
  }

  /** yeptris_tape_columns on one word: the kind byte, 24 bits of length, the rest. */
  function Unpack(w: nat): Rec { Rec(KindOf(w % 256), w / TWO_32, w / 256 % TWO_24) }

  /** What packing and unpacking leave of a row. */
  function Through(r: Rec): Rec { Rec(r.kind, Or(r.off, r.len / TWO_24), r.len % TWO_24) }

  lemma Fields(a: nat, b: nat, c: nat)
    requires b < TWO_24 && c < 256
    ensures var w := a * TWO_32 + b * 256 + c; w % 256 == c && w / TWO_32 == a && w / 256 % TWO_24 == b
  {
    var w := a * TWO_32 + b * 256 + c;
    assert w == (a * TWO_24 + b) * 256 + c;
    assert w / 256 == a * TWO_24 + b;
  }

  lemma UnpackPack(r: Rec)
    ensures Unpack(Pack(r)) == Through(r)
  {
    Fields(Or(r.off, r.len / TWO_24), r.len % TWO_24, Code(r.kind));
  }

  /** A row comes back exactly when its length fits in 24 bits. */
  lemma ThroughExactly(r: Rec)
    ensures Through(r) == r <==> r.len < TWO_24
  {
  }

  function AllThrough(rows: seq<Rec>): (r: seq<Rec>)
    ensures |r| == |rows|
  {
    seq(|rows|, k requires 0 <= k < |rows| => Through(rows[k]))
  }

  predicate Short(rows: seq<Rec>) { forall k :: 0 <= k < |rows| ==> rows[k].len < 0x100_0000 }

  /** The rows come back exactly when no token is 2^24 bytes long or longer. */
  lemma RowsThroughExactly(rows: seq<Rec>)
    ensures AllThrough(rows) == rows <==> Short(rows)
  {
    hide Through;
    forall k | 0 <= k < |rows| ensures Through(rows[k]) == rows[k] <==> rows[k].len < TWO_24 { ThroughExactly(rows[k]); }
    if AllThrough(rows) == rows {
      forall k | 0 <= k < |rows| ensures rows[k].len < TWO_24 { assert AllThrough(rows)[k] == rows[k]; }
    }
  }

  /** A closer patches its opener's offset and leaves the low half of the word. */
  function Patched(w: nat, off: nat): nat { off * TWO_32 + w % TWO_32 }

  lemma PatchedIs(r: Rec, off: nat)
    requires r.len == 0
    ensures Patched(Pack(r), off) == Pack(r.(off := off))
  {
  }
}
