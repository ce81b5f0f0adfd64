/** CBOR Sequences (RFC 8742): items back to back, decoded one at a time. */
module CborSequence {
  import opened Bytes
  import opened CborRead
  import CborDecode
  import opened CborLoose
  import CborFacts

  datatype Verdict = Complete | Malformed | BreakAfterTag

  /** The items delivered, and how the walk ended. */
  datatype Sequence = Sequence(items: seq<seq<Event>>, verdict: Verdict)

  function After(items: seq<seq<Event>>, rest: Sequence): Sequence {
    Sequence(items + rest.items, rest.verdict)
  }

  /** The items of a sequence, each read from where the one before ended. */
  function ReadSequence(p: seq<byte>, strict: bool): Sequence
    decreases |p|
  {
    if p == [] then Sequence([], Complete)
    else
      match Read(p, strict)
      case Failed(_, s) => Sequence([], if s == TagBeforeBreak then BreakAfterTag else Malformed)
      case Done(e, n) => After([e], ReadSequence(p[n..], strict))
  }

  /** The items the decoder delivers, and whether it reached the end of the bytes. */
  datatype Walk = Walk(items: seq<seq<Event>>, complete: bool)

  function Behind(items: seq<seq<Event>>, rest: Walk): Walk { Walk(items + rest.items, rest.complete) }

  function LooseSequence(p: seq<byte>, strict: bool): Walk
    decreases |p|
  {
    if p == [] then Walk([], true)
    else
      match LooseRead(p, strict)
      case Lost(_, _) => Walk([], false)
      case Left(e, n, _) => Behind([e], LooseSequence(p[n..], strict))
  }

  lemma BehindTwice(a: seq<seq<Event>>, b: seq<seq<Event>>, rest: Walk)
    ensures Behind(a, Behind(b, rest)) == Behind(a + b, rest)
  {
    assert a + (b + rest.items) == (a + b) + rest.items;
  }

  /** Where no item has a break after a tag, the walk is the reading of the sequence. */
  lemma {:induction false} WalkIsReading(p: seq<byte>, strict: bool)
    ensures var all := ReadSequence(p, strict);
      all.verdict != BreakAfterTag ==> LooseSequence(p, strict) == Walk(all.items, all.verdict == Complete)
    decreases |p|
  {
    hide Read, LooseRead;
    if p != [] {
      LooseIsRead(p, strict);
      if Read(p, strict).Done? { WalkIsReading(p[Read(p, strict).next..], strict); }
    }
  }

  /** yeptris_cbor_decode_sequence, with a callback that never aborts. */
  method DecodeSequence(p: seq<byte>, strict: bool) returns (items: seq<seq<Event>>, ok: bool)
    ensures Walk(items, ok) == LooseSequence(p, strict)
    ensures var all := ReadSequence(p, strict);
      all.verdict != BreakAfterTag ==> items == all.items && ok == (all.verdict == Complete)
  {
    hide LooseRead, Behind, ReadSequence;
    items := [];
    var i := 0;
    ghost var all := LooseSequence(p, strict);
    WalkIsReading(p, strict);
    assert p[0..] == p;
    Whole(all);
    while i < |p|
      invariant i <= |p|
      invariant all == Behind(items, LooseSequence(p[i..], strict))
    {
      var d := new CborDecode.Decoder(p[i..], strict);
      var done, used := d.Decode(true);
      Ends(items, p[i..], strict);
      if !done {
        return items, false;
      }
      assert p[i..][used..] == p[i + used..];
      BehindTwice(items, [d.events], LooseSequence(p[i + used..], strict));
      items := items + [d.events];
      i := i + used;
    }
    Ends(items, p[i..], strict);
    ok := true;
  }

  lemma Whole(all: Walk)
    ensures Behind([], all) == all
  {
    assert [] + all.items == all.items;
  }

  lemma Ends(items: seq<seq<Event>>, p: seq<byte>, strict: bool)
    ensures p == [] ==> Behind(items, LooseSequence(p, strict)) == Walk(items, true)
    ensures p != [] && LooseRead(p, strict).Lost? ==> Behind(items, LooseSequence(p, strict)) == Walk(items, false)
  {
    hide LooseRead;
    assert items + [] == items;
  }

  function Concat(parts: seq<seq<byte>>): seq<byte> {
    if parts == [] then [] else parts[0] + Concat(parts[1..])
  }

  /** A concatenation of items splits exactly at the item boundaries. */
  lemma {:induction false} ConcatenationSplits(parts: seq<seq<byte>>, strict: bool)
    requires forall k :: 0 <= k < |parts| ==> Read(parts[k], strict).Done? && Read(parts[k], strict).next == |parts[k]|
    ensures ReadSequence(Concat(parts), strict) ==
            Sequence(seq(|parts|, k requires 0 <= k < |parts| => Read(parts[k], strict).events), Complete)
    decreases |parts|
  {
    hide ReadItem;
    if parts != [] {
      var rest := Concat(parts[1..]);
      var o := Read(parts[0], strict);
      CborFacts.ItemExtends(parts[0], rest, 0, [], TOP, 0, strict);
      assert Read(Concat(parts), strict) == o;
      assert Concat(parts)[o.next..] == rest;
      ConcatenationSplits(parts[1..], strict);
    }
  }

  /** Conversely, a complete walk splits the bytes into pieces each of which is one item on its own. */
  lemma {:induction false} CompleteWalkIsConcatenation(p: seq<byte>, strict: bool) returns (parts: seq<seq<byte>>)
    requires ReadSequence(p, strict).verdict == Complete
    ensures Concat(parts) == p && |parts| == |ReadSequence(p, strict).items|
    ensures forall k :: 0 <= k < |parts| ==>
      Read(parts[k], strict) == Done(ReadSequence(p, strict).items[k], |parts[k]|)
    decreases |p|
  {
    hide ReadItem;
    if p == [] {
      parts := [];
    } else {
      var o := Read(p, strict);
      var rest := CompleteWalkIsConcatenation(p[o.next..], strict);
      CborFacts.ItemAlone(p, strict);
      parts := [p[..o.next]] + rest;
      assert parts[1..] == rest;
    }
  }
}
