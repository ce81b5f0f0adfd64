/** The CBOR decoder: one loop over an explicit frame stack, driving a sink. */
module CborDecode {
  import opened Bytes
  import opened CborRead
  import opened CborLoose
  import Utf8

  /** yep_cdec, with the sink's calls logged in order. */
  class Decoder {
    const p: seq<byte>
    const strict: bool
    var i: nat
    var status: Status
    var tagbuf: seq<byte>
    var taglinks: nat
    const frame: array<Frame>
    var depth: nat
    var events: seq<Event>
    ghost var chain: seq<nat>

    ghost predicate Valid()
      reads this, frame
    {
      && i <= |p|
      && frame.Length == MAX_DEPTH && depth <= MAX_DEPTH
      && tagbuf == ChainText(chain) && taglinks == |chain| <= TAG_MAX_LINKS
      && forall k :: 0 <= k < |chain| ==> chain[k] < TWO_64
    }

    constructor (input: seq<byte>, strictMode: bool)
      ensures Valid() && fresh(frame)
      ensures p == input && strict == strictMode && i == 0 && depth == 0 && chain == [] && events == []
    {
      p, strict := input, strictMode;
      i, depth, taglinks, tagbuf, chain, events := 0, 0, 0, [], [], [];
      status := Parse;
      frame := new Frame[MAX_DEPTH](_ => TOP);
    }

    /** The frames open right now, outermost first. */
    ghost function Frames(): seq<Frame>
      requires Valid()
      reads this, frame
    {
      frame[..depth]
    }

    /** The frame the next item lands in. */
    ghost function Here(): Frame
      requires Valid()
      reads this, frame
    {
      if depth == 0 then TOP else frame[depth - 1]
    }

    /** cbor_take_tag: the pending chain, consumed. */
    method TakeTag() returns (tag: seq<byte>)
      requires Valid()
      modifies this`tagbuf, this`taglinks, this`chain
      ensures Valid() && chain == [] && tag == old(ChainText(chain))
    {
      tag := tagbuf;
      tagbuf, taglinks, chain := [], 0, [];
    }

    /** cbor_arg. */
    method ReadArgument(ai: nat) returns (ok: bool, val: nat)
      requires Valid()
      modifies this`i, this`status
      ensures Valid()
      ensures ok == ReadArg(p, old(i), ai, strict).ArgOk?
      ensures ok ==> ReadArg(p, old(i), ai, strict) == ArgOk(val, i) && val < TWO_64
      ensures !ok ==> status == Parse
    {
      ok, val := false, 0;
      if ai >= 28 {
        status := Parse;
        return;
      }
      val := ai;
      if ai >= 24 {
        var n := ArgWidth(ai);
        if |p| - i < n {
          status := Parse;
          return;
        }
        val := 0;
        for k := 0 to n
          invariant val == BigEndian(p[i..i + k])
        {
          assert p[i..i + k + 1][..k] == p[i..i + k];
          val := val * 256 + p[i + k];
        }
        BelowTwo64(p[i..i + n]);
        i := i + n;
        if strict && val < ArgMinimum(ai) {
          status := Parse;
          return;
        }
      }
      ok := true;
    }

    /** cbor_note_tag: one more link in the text buffer. */
    method NoteTag(link: nat) returns (ok: bool)
      requires Valid() && link < TWO_64
      modifies this`tagbuf, this`taglinks, this`chain, this`status
      ensures Valid()
      ensures ok == (old(|chain|) < TAG_MAX_LINKS)
      ensures chain == if ok then old(chain) + [link] else old(chain)
      ensures !ok ==> status == Parse
    {
      ChainTextFits(chain);
      if taglinks >= TAG_MAX_LINKS || |tagbuf| + 1 + 20 > TAGBUF {
        status := Parse;
        return false;
      }
      ChainTextNext(chain, link);
      if |tagbuf| > 0 {
        tagbuf := tagbuf + [0x20];
      }
      var digits := U64Dec(link);
      tagbuf := tagbuf + digits;
      taglinks := taglinks + 1;
      chain := chain + [link];
      return true;
    }

    /** One pass of the chunk loop: the break, or one chunk's bytes. */
    method NextChunk(isText: bool) returns (ok: bool, done: bool, bytes: seq<byte>)
      requires Valid()
      modifies this`i, this`status
      ensures Valid()
      ensures match ReadChunk(p, old(i), isText, strict)
        case BadChunk(s) => !ok && status == s
        case Break => ok && done && i == old(i) + 1 && bytes == []
        case Data(j, n) => ok && !done && i == j + n && bytes == p[j..j + n]
    {
      hide ReadArg, BigEndian, ChainText, Utf8.Valid;
      ok, done, bytes := false, false, [];
      if i >= |p| {
        status := Parse;
        return;
      }
      var ib := p[i];
      i := i + 1;
      if ib == 0xFF {
        return true, true, [];
      }
      if ib / 32 != (if isText then 3 else 2) || ib % 32 == 31 {
        status := Parse;
        return;
      }
      var argOk, n := ReadArgument(ib % 32);
      if !argOk {
        return;
      }
      if n > |p| - i {
        status := Parse;
        return;
      }
      if isText && !Utf8.Valid(p[i..i + n]) {
        status := Encoding;
        return;
      }
      ok, bytes := true, p[i..i + n];
      i := i + n;
    }

    /** The chunk loop of cbor_indef_string. */
    method GatherChunks(isText: bool) returns (ok: bool, total: seq<byte>)
      requires Valid()
      modifies this`i, this`status
      ensures Valid()
      ensures ok == ReadChunks(p, old(i), isText, strict).ChunksOk?
      ensures ok ==> ReadChunks(p, old(i), isText, strict) == ChunksOk(total, i)
      ensures !ok ==> ReadChunks(p, old(i), isText, strict) == ChunksBad(status)
    {
      hide ReadChunk, ReadChunks, ChainText, Joined;
      total := [];
      ghost var all := ReadChunks(p, i, isText, strict);
      JoinedNothing(all);
      while true
        invariant Valid()
        invariant all == Joined(total, ReadChunks(p, i, isText, strict))
        decreases |p| - i
      {
        ghost var at := i;
        var done, bytes;
        ok, done, bytes := NextChunk(isText);
        JoinedStep(p, at, isText, strict, total);
        if !ok {
          return;
        }
        if done {
          break;
        }
        total := total + bytes;
      }
    }

    /** cbor_indef_string: the chunks, then one sink call over the accumulated span. */
    method IndefString(isText: bool) returns (ok: bool)
      requires Valid()
      modifies this`i, this`status, this`tagbuf, this`taglinks, this`chain, this`events
      ensures Valid()
      ensures ok == ReadChunks(p, old(i), isText, strict).ChunksOk?
      ensures ok ==> i == ReadChunks(p, old(i), isText, strict).next && chain == []
      ensures ok ==> events ==
                     old(events) + [IndefEvent(isText, ReadChunks(p, old(i), isText, strict).bytes, old(ChainText(chain)))]
      ensures !ok ==> ReadChunks(p, old(i), isText, strict) == ChunksBad(status) && events == old(events)
    {
      hide ReadChunks, ChainText;
      var total;
      ok, total := GatherChunks(isText);
      if !ok {
        return;
      }
      var tag := TakeTag();
      if isText {
        events := events + [Str(total, false, false, tag)];
      } else {
        events := events + [ByteStr(total, false, false, tag)];
      }
    }

    /** What a head did to the decoder; r is cbor_item's return code. */
    ghost predicate Settled(h: Head, events0: seq<Event>, frames0: seq<Frame>, chain0: seq<nat>, r: nat)
      reads this, frame
    {
      && Valid()
      && match h
         case Reject(s) => r == 0 && status == s && events == events0
         case Leaf(e, n) => r == 1 && i == n && chain == [] && events == events0 + [e] && Frames() == frames0
         case Begin(isMap, rem, tag, n) =>
           && r == 1 && i == n && chain == []
           && events == events0 + [Open(isMap, rem, tag)]
           && Frames() == frames0 + [Frame(rem, 0, isMap)]
         case Tag(link, n) => r == 2 && i == n && chain == chain0 + [link] && events == events0 && Frames() == frames0
    }

    /** One scalar sink call; the pending chain goes with it. */
    method Land(e: Event)
      requires Valid()
      modifies this`tagbuf, this`taglinks, this`chain, this`events
      ensures Valid() && chain == [] && events == old(events) + [e]
    {
      var _ := TakeTag();
      events := events + [e];
    }

    /** cbor_open. */
    method OpenContainer(isMap: bool, rem: Remaining, key: bool) returns (r: nat)
      requires Valid()
      modifies this`tagbuf, this`taglinks, this`chain, this`events, this`status, this`depth, frame
      ensures Settled(ContainerHead(p, old(i), isMap, rem, key, old(depth), old(ChainText(chain)), true),
                      old(events), old(Frames()), old(chain), r)
    {
      hide ChainText;
      if key {
        status := Parse;
        return 0;
      }
      if rem.Items? && rem.n > (if isMap then (|p| - i) / 2 else |p| - i) {
        status := Parse;
        return 0;
      }
      if depth >= MAX_DEPTH {
        status := Depth;
        return 0;
      }
      var tag := TakeTag();
      var cap := if rem.Items? && isMap then Items(rem.n * 2) else rem;
      events := events + [Open(isMap, cap, tag)];
      frame[depth] := Frame(cap, 0, isMap);
      depth := depth + 1;
      return 1;
    }

    /** Major types 0 and 1. */
    method Integer(negative: bool, arg: nat, key: bool) returns (r: nat)
      requires Valid()
      modifies this`tagbuf, this`taglinks, this`chain, this`events, this`status
      ensures Settled(IntHead(negative, arg, key, strict, old(ChainText(chain)), i),
                      old(events), old(Frames()), old(chain), r)
    {
      hide ChainText;
      if key && strict {
        status := Parse;
        return 0;
      }
      if key {
        var digits := U64Dec(arg);
        Land(Text(if negative then [0x2D] + digits else digits, TAG_STR, true, tagbuf));
      } else if !negative && arg <= INT64_MAX {
        Land(Int(false, arg, false, tagbuf));
      } else if negative && arg <= INT64_MAX + 1 {
        Land(Int(true, arg + 1, false, tagbuf));
      } else {
        Land(Float(Beyond(negative, arg), false, tagbuf));
      }
      return 1;
    }

    /** Major types 2 and 3 with a definite length. */
    method DefiniteString(isText: bool, n: nat, key: bool) returns (r: nat)
      requires Valid()
      modifies this`i, this`tagbuf, this`taglinks, this`chain, this`events, this`status
      ensures Settled(StringHead(p, old(i), n, isText, key, strict, old(ChainText(chain))),
                      old(events), old(Frames()), old(chain), r)
    {
      hide ChainText, HexKey, Utf8.Valid;
      if n > |p| - i {
        status := Parse;
        return 0;
      }
      var s := p[i..i + n];
      if isText && !Utf8.Valid(s) {
        status := Encoding;
        return 0;
      }
      if key && !isText && strict {
        status := Parse;
        return 0;
      }
      if key && !isText {
        Land(Text(HexKey(s), TAG_STR, true, tagbuf));
      } else if isText {
        Land(Str(s, true, key, tagbuf));
      } else {
        Land(ByteStr(s, true, key, tagbuf));
      }
      i := i + n;
      return 1;
    }

    /** Major type 7; the cursor is past the initial byte. */
    method SimpleOrFloat(ai: nat, key: bool) returns (r: nat)
      requires Valid() && ai < 31
      modifies this`i, this`tagbuf, this`taglinks, this`chain, this`events, this`status
      ensures Settled(SimpleHead(p, old(i), ai, key, strict, old(ChainText(chain))),
                      old(events), old(Frames()), old(chain), r)
    {
      hide ChainText, SimpleEvent, BigEndian;
      if ai < 24 {
        Land(SimpleEvent(ai, key, tagbuf));
        return 1;
      }
      if ai == 24 {
        if |p| - i < 1 || p[i] < 32 {
          status := Parse;
          return 0;
        }
        Land(SimpleEvent(p[i], key, tagbuf));
        i := i + 1;
        return 1;
      }
      r := FloatItem(ai, key);
    }

    /** Half, single and double floats; 28 to 30 are reserved. */
    method FloatItem(ai: nat, key: bool) returns (r: nat)
      requires Valid() && 25 <= ai < 31
      modifies this`i, this`tagbuf, this`taglinks, this`chain, this`events, this`status
      ensures Settled(SimpleHead(p, old(i), ai, key, strict, old(ChainText(chain))),
                      old(events), old(Frames()), old(chain), r)
    {
      hide ChainText, SimpleEvent, BigEndian;
      if ai > 27 {
        status := Parse;
        return 0;
      }
      var n := ArgWidth(ai);
      if |p| - i < n {
        status := Parse;
        return 0;
      }
      var bits := BigEndian(p[i..i + n]);
      if key && strict {
        status := Parse;
        return 0;
      }
      Land(Float(if ai == 25 then Half(bits) else if ai == 26 then Single(bits) else Double(bits), key, tagbuf));
      i := i + n;
      return 1;
    }

    /** cbor_item: decodes one head. 0 failure, 1 an item landed or opened, 2 a tag. */
    method Item() returns (r: nat)
      requires Valid()
      modifies this, frame
      ensures Settled(ReadHead(p, old(i), old(chain), old(Here()).KeySlot(), old(depth), strict, true),
                      old(events), old(Frames()), old(chain), r)
    {
      hide ChainText, ReadArg, ReadChunks, IntHead, StringHead, SimpleHead, ContainerHead;
      if i >= |p| {
        status := Parse;
        return 0;
      }
      var ib := p[i];
      i := i + 1;
      var mt, ai := ib / 32, ib % 32;
      var key := depth > 0 && frame[depth - 1].KeySlot();
      if ai == 31 {
        if mt == 2 || mt == 3 {
          if key {
            status := Parse;
            return 0;
          }
          var ok := IndefString(mt == 3);
          return if ok then 1 else 0;
        }
        if mt == 4 || mt == 5 {
          r := OpenContainer(mt == 5, UntilBreak, key);
          return;
        }
        status := Parse;
        return 0;
      }
      if mt == 7 {
        r := SimpleOrFloat(ai, key);
        return;
      }
      var ok, arg := ReadArgument(ai);
      if !ok {
        return 0;
      }
      if mt <= 1 {
        r := Integer(mt == 1, arg, key);
      } else if mt <= 3 {
        r := DefiniteString(mt == 3, arg, key);
      } else if mt <= 5 {
        r := OpenContainer(mt == 5, Items(arg), key);
      } else {
        ok := NoteTag(arg);
        r := if ok then 2 else 0;
      }
    }

    /** The calls made so far and what is left to read make up the whole reading. */
    ghost predicate OnTrack(whole: Loose, doneTop: bool)
      requires Valid()
      reads this, frame
    {
      && (doneTop || (depth == 0 && events == []))
      && whole == if doneTop then Ahead(events, Resume(p, Frames(), i, chain, strict)) else LooseItem(p, i, chain, strict)
    }

    /** The innermost container ends: the sink is told and the frame popped. */
    method PopFrame()
      requires Valid() && depth > 0
      modifies this`events, this`depth
      ensures Valid() && depth == old(depth) - 1
      ensures events == old(events) + [Close(old(Here()).isMap)]
      ensures Frames() == old(Frames())[..depth]
    {
      events := events + [Close(frame[depth - 1].isMap)];
      depth := depth - 1;
    }

    /** The innermost open container takes one more head. */
    method FrameItem(ghost whole: Loose) returns (go: bool)
      requires Valid() && depth > 0 && OnTrack(whole, true)
      requires Here().rem != Items(0) && !(Here().rem == UntilBreak && i < |p| && p[i] == 0xFF)
      modifies this, frame
      ensures Valid()
      ensures go ==> OnTrack(whole, true) && i > old(i)
      ensures !go ==> whole == Lost(events, status)
    {
      hide ReadHead, ChainText, Resume, LooseBody, LooseItem, Ahead;
      ghost var frames, front, fr := Frames(), Frames()[..depth - 1], Here();
      assert frames == front + [fr];
      ItemStep(p, frames, i, chain, strict, events);
      var parent := depth - 1;
      var r := Item();
      if r == 0 {
        return false;
      }
      if r == 2 {
        return true;
      }
      ghost var before := Frames();
      assert before[..|frames|] == frames && before[parent] == fr;
      frame[parent] := frame[parent].Next();
      assert Frames() == before[parent := fr.Next()];
      assert frames[parent := fr.Next()] == front + [fr.Next()];
      assert depth == |frames| ==> Frames() == front + [fr.Next()];
      assert depth == |frames| + 1 ==> Frames() == front + [fr.Next(), frame[|frames|]];
      return true;
    }

    /** One pass of the loop with a container open; go says whether it continues. */
    method InFrame(ghost whole: Loose) returns (go: bool)
      requires Valid() && depth > 0 && OnTrack(whole, true)
      modifies this, frame
      ensures Valid()
      ensures go ==> OnTrack(whole, true) && (i > old(i) || (i == old(i) && depth < old(depth)))
      ensures !go ==> whole == Lost(events, status)
    {
      hide ReadHead, ChainText, Resume, LooseBody, LooseItem, Ahead;
      var fr := frame[depth - 1];
      if fr.rem == Items(0) {
        CloseStep(p, Frames(), i, chain, strict, events);
        PopFrame();
        return true;
      }
      if fr.rem == UntilBreak && i < |p| && p[i] == 0xFF {
        BreakStep(p, Frames(), i, chain, strict, events);
        if fr.isMap && fr.consumed % 2 == 1 {
          status := Parse;
          return false;
        }
        i := i + 1;
        PopFrame();
        return true;
      }
      go := FrameItem(whole);
    }

    /**
     * yep_cbor_decode_gen: the frame loop. It makes the calls of the loose reading, in order, stops where it stops
     * and fails as it fails.
     */
    method Decode(wantConsumed: bool) returns (ok: bool, consumed: nat)
      requires Valid() && i == 0 && depth == 0 && chain == [] && events == []
      modifies this, frame
      ensures match LooseRead(p, strict)
        case Left(e, n, _) => events == e && if wantConsumed || n == |p| then ok && consumed == n else !ok && status == Parse
        case Lost(e, s) => !ok && status == s && events == e
      ensures ok ==> 0 < consumed <= |p|
    {
      hide ReadHead, ChainText, Resume, LooseBody, LooseItem, Ahead;
      ok, consumed := false, 0;
      var doneTop := false;
      ghost var whole := LooseRead(p, strict);
      while true
        invariant Valid() && OnTrack(whole, doneTop) && (doneTop ==> i > 0)
        decreases |p| - i, depth
      {
        if depth == 0 {
          if doneTop {
            Finished(p, events, i, chain, strict);
            if i != |p| && !wantConsumed {
              status := Parse;
              return;
            }
            return true, i;
          }
          TopStep(p, i, chain, strict);
          var r := Item();
          if r == 0 {
            return;
          }
          if r == 1 {
            doneTop := true;
            assert Frames() == if depth == 0 then [] else [frame[0]];
            assert events == [events[0]];
          }
        } else {
          var go := InFrame(whole);
          if !go {
            return;
          }
        }
      }
    }
  }

  // ---- the loop against the recursion ------------------------------------------

  /** What is left to read with these frames open: each container in turn, innermost first. */
  function Resume(p: seq<byte>, frames: seq<Frame>, i: nat, chain: seq<nat>, strict: bool): Loose
    requires i <= |p|
    decreases |frames|, 0
  {
    if frames == [] then Left([], i, chain)
    else Then(p, LooseBody(p, i, chain, frames[|frames| - 1], |frames|, strict), frames[..|frames| - 1], strict)
  }

  function Then(p: seq<byte>, o: Loose, frames: seq<Frame>, strict: bool): Loose
    requires o.Left? ==> o.next <= |p|
    decreases |frames|, 1
  {
    match o
    case Lost(_, _) => o
    case Left(e, j, chain) => Ahead(e, Resume(p, frames, j, chain, strict))
  }

  lemma AheadTwice(a: seq<Event>, b: seq<Event>, o: Loose)
    ensures Ahead(a, Ahead(b, o)) == Ahead(a + b, o)
  {
    match o
    case Left(e, _, _) => assert a + (b + e) == (a + b) + e;
    case Lost(e, _) => assert a + (b + e) == (a + b) + e;
  }

  lemma Finished(p: seq<byte>, acc: seq<Event>, i: nat, chain: seq<nat>, strict: bool)
    requires i <= |p|
    ensures Ahead(acc, Resume(p, [], i, chain, strict)) == Left(acc, i, chain)
  {
    assert acc + [] == acc;
  }

  /** A definite container that expects nothing more closes. */
  lemma CloseStep(p: seq<byte>, frames: seq<Frame>, i: nat, chain: seq<nat>, strict: bool, acc: seq<Event>)
    requires i <= |p| && frames != [] && frames[|frames| - 1].rem == Items(0)
    ensures var f := frames[|frames| - 1];
      Ahead(acc, Resume(p, frames, i, chain, strict)) ==
      Ahead(acc + [Close(f.isMap)], Resume(p, frames[..|frames| - 1], i, chain, strict))
  {
    var f := frames[|frames| - 1];
    AheadTwice(acc, [Close(f.isMap)], Resume(p, frames[..|frames| - 1], i, chain, strict));
  }

  /** A break closes the container, or is malformed after a key. */
  lemma BreakStep(p: seq<byte>, frames: seq<Frame>, i: nat, chain: seq<nat>, strict: bool, acc: seq<Event>)
    requires i < |p| && p[i] == 0xFF && frames != [] && frames[|frames| - 1].rem == UntilBreak
    ensures var f := frames[|frames| - 1];
      Ahead(acc, Resume(p, frames, i, chain, strict)) ==
      if f.isMap && f.consumed % 2 == 1 then Lost(acc, Parse)
      else Ahead(acc + [Close(f.isMap)], Resume(p, frames[..|frames| - 1], i + 1, chain, strict))
  {
    var f := frames[|frames| - 1];
    assert acc + [] == acc;
    AheadTwice(acc, [Close(f.isMap)], Resume(p, frames[..|frames| - 1], i + 1, chain, strict));
  }

  /** One head inside an open container. */
  lemma ItemStep(p: seq<byte>, frames: seq<Frame>, i: nat, chain: seq<nat>, strict: bool, acc: seq<Event>)
    requires i <= |p| && frames != []
    requires var f := frames[|frames| - 1];
      f.rem != Items(0) && !(f.rem == UntilBreak && i < |p| && p[i] == 0xFF)
    ensures var f := frames[|frames| - 1];
      var front := frames[..|frames| - 1];
      Ahead(acc, Resume(p, frames, i, chain, strict)) ==
      match ReadHead(p, i, chain, f.KeySlot(), |frames|, strict, true)
      case Reject(s) => Lost(acc, s)
      case Tag(link, j) => Ahead(acc, Resume(p, frames, j, chain + [link], strict))
      case Leaf(e, j) => Ahead(acc + [e], Resume(p, front + [f.Next()], j, [], strict))
      case Begin(isMap, rem, tag, j) =>
        Ahead(acc + [Open(isMap, rem, tag)], Resume(p, front + [f.Next(), Frame(rem, 0, isMap)], j, [], strict))
  {
    hide ReadHead, Ahead;
    var f := frames[|frames| - 1];
    var front := frames[..|frames| - 1];
    var depth := |frames|;
    match ReadHead(p, i, chain, f.KeySlot(), depth, strict, true)
    case Reject(s) => AheadLost(acc, s);
    case Tag(link, j) =>
    case Leaf(e, j) => LeafStep(p, front, f, j, strict, acc, e);
    case Begin(isMap, rem, tag, j) => BeginStep(p, front, f, Frame(rem, 0, isMap), j, strict, acc, Open(isMap, rem, tag));
  }

  lemma AheadLost(acc: seq<Event>, s: Status)
    ensures Ahead(acc, Lost([], s)) == Lost(acc, s)
  {
    assert acc + [] == acc;
  }

  lemma LeafStep(p: seq<byte>, front: seq<Frame>, f: Frame, j: nat, strict: bool, acc: seq<Event>, e: Event)
    requires j <= |p| && f.rem != Items(0)
    ensures Ahead(acc, Then(p, Ahead([e], LooseBody(p, j, [], f.Next(), |front| + 1, strict)), front, strict)) ==
            Ahead(acc + [e], Resume(p, front + [f.Next()], j, [], strict))
  {
    hide LooseBody;
    var body := LooseBody(p, j, [], f.Next(), |front| + 1, strict);
    assert (front + [f.Next()])[..|front|] == front;
    ThenAhead(p, [e], body, front, strict);
    AheadTwice(acc, [e], Then(p, body, front, strict));
  }

  /** An inner container's reading, then the rest of the outer one. */
  function Within(p: seq<byte>, e: Event, inner: Loose, f: Frame, depth: nat, strict: bool): Loose
    requires f.rem != Items(0) && (inner.Left? ==> inner.next <= |p|)
  {
    match inner
    case Lost(e1, s) => Lost([e] + e1, s)
    case Left(e1, k, pending) => Ahead([e] + e1, LooseBody(p, k, pending, f.Next(), depth, strict))
  }

  lemma BeginStep(p: seq<byte>, front: seq<Frame>, f: Frame, child: Frame, j: nat, strict: bool, acc: seq<Event>, e: Event)
    requires j <= |p| && f.rem != Items(0)
    ensures Ahead(acc, Then(p, Within(p, e, LooseBody(p, j, [], child, |front| + 2, strict), f, |front| + 1, strict), front, strict)) ==
            Ahead(acc + [e], Resume(p, front + [f.Next(), child], j, [], strict))
  {
    hide LooseBody;
    var body := LooseBody(p, j, [], child, |front| + 2, strict);
    var stack := front + [f.Next(), child];
    assert stack[..|stack| - 1] == front + [f.Next()];
    assert (front + [f.Next()])[..|front|] == front;
    match body {
      case Lost(e1, s) =>
        AheadTwice(acc, [e], body);
      case Left(e1, k, pending) =>
        var after := LooseBody(p, k, pending, f.Next(), |front| + 1, strict);
        assert Resume(p, front + [f.Next()], k, pending, strict) == Then(p, after, front, strict);
        ThenAhead(p, [e] + e1, after, front, strict);
        AheadTwice([e], e1, Then(p, after, front, strict));
        AheadTwice(acc, [e], Ahead(e1, Then(p, after, front, strict)));
    }
  }

  lemma ThenAhead(p: seq<byte>, e: seq<Event>, o: Loose, frames: seq<Frame>, strict: bool)
    requires o.Left? ==> o.next <= |p|
    ensures Then(p, Ahead(e, o), frames, strict) == Ahead(e, Then(p, o, frames, strict))
  {
    if o.Left? {
      AheadTwice(e, o.events, Resume(p, frames, o.next, o.chain, strict));
    }
  }

  /** One head of the top-level item. */
  lemma TopStep(p: seq<byte>, i: nat, chain: seq<nat>, strict: bool)
    requires i <= |p|
    ensures LooseItem(p, i, chain, strict) ==
      match ReadHead(p, i, chain, false, 0, strict, true)
      case Reject(s) => Lost([], s)
      case Tag(link, j) => LooseItem(p, j, chain + [link], strict)
      case Leaf(e, j) => Ahead([e], Resume(p, [], j, [], strict))
      case Begin(isMap, rem, tag, j) =>
        Ahead([Open(isMap, rem, tag)], Resume(p, [Frame(rem, 0, isMap)], j, [], strict))
  {
    hide ReadHead, LooseBody;
    match ReadHead(p, i, chain, false, 0, strict, true)
    case Reject(s) =>
    case Tag(link, j) =>
    case Leaf(e, j) => assert [e] + [] == [e];
    case Begin(isMap, rem, tag, j) =>
      var child := Frame(rem, 0, isMap);
      var body := LooseBody(p, j, [], child, 1, strict);
      assert [child][..0] == [];
      if body.Left? { assert body.events + [] == body.events; }
  }

  /** Chunk bytes already gathered, in front of what is still to be read. */
  function Joined(total: seq<byte>, rest: Chunks): Chunks {
    if rest.ChunksOk? then ChunksOk(total + rest.bytes, rest.next) else rest
  }

  lemma JoinedNothing(rest: Chunks)
    ensures Joined([], rest) == rest
  {
    if rest.ChunksOk? { assert [] + rest.bytes == rest.bytes; }
  }

  lemma JoinedStep(p: seq<byte>, i: nat, isText: bool, strict: bool, total: seq<byte>)
    requires i <= |p|
    ensures Joined(total, ReadChunks(p, i, isText, strict)) ==
      match ReadChunk(p, i, isText, strict)
      case BadChunk(s) => ChunksBad(s)
      case Break => ChunksOk(total, i + 1)
      case Data(j, n) => Joined(total + p[j..j + n], ReadChunks(p, j + n, isText, strict))
  {
    hide ReadChunk;
    match ReadChunk(p, i, isText, strict)
    case BadChunk(_) =>
    case Break => assert total + [] == total;
    case Data(j, n) =>
      var rest := ReadChunks(p, j + n, isText, strict);
      if rest.ChunksOk? { assert (total + p[j..j + n]) + rest.bytes == total + (p[j..j + n] + rest.bytes); }
  }

  // ---- number text -------------------------------------------------------------

  lemma BelowTwo64(s: seq<byte>)
    requires |s| <= 8
    ensures BigEndian(s) < TWO_64
  {
    Powers();
    PowerGrows(|s|, 8);
  }

  lemma {:induction false} PowerGrows(m: nat, n: nat)
    requires m <= n
    ensures Power256(m) <= Power256(n)
  {
    if m < n { PowerGrows(m, n - 1); }
  }

  /** The digit pair of a remainder below 100, as the pair table spells it. */
  function Tens(r: nat): byte requires r < 100 { 0x30 + r / 10 }
  function Units(r: nat): byte requires r < 100 { 0x30 + r % 10 }

  function Reversed(s: seq<byte>): (r: seq<byte>)
    ensures |r| == |s|
  {
    seq(|s|, i requires 0 <= i < |s| => s[|s| - 1 - i])
  }

  lemma ReversedPush(s: seq<byte>, c: byte)
    ensures Reversed(s + [c]) == [c] + Reversed(s)
  {}

  /** cbor_u64dec: two digits per divide into a scratch buffer, then reversed. */
  method U64Dec(v: nat) returns (s: seq<byte>)
    ensures s == Decimal(v)
  {
    var tmp: seq<byte> := [];
    var w := v;
    while w >= 100
      invariant Decimal(v) == Decimal(w) + Reversed(tmp)
      decreases w
    {
      var r := w % 100;
      DecimalPair(w);
      ReversedPush(tmp, Units(r));
      ReversedPush(tmp + [Units(r)], Tens(r));
      w := w / 100;
      tmp := tmp + [Units(r)];
      tmp := tmp + [Tens(r)];
    }
    if w >= 10 {
      ReversedPush(tmp, Units(w));
      ReversedPush(tmp + [Units(w)], Tens(w));
      tmp := tmp + [Units(w)];
      tmp := tmp + [Tens(w)];
    } else {
      ReversedPush(tmp, 0x30 + w);
      tmp := tmp + [0x30 + w];
    }
    s := Reversed(tmp);
  }

  /** Dividing by 100 takes off the last two digits. */
  lemma DecimalPair(w: nat)
    requires w >= 100
    ensures Decimal(w) == Decimal(w / 100) + [Tens(w % 100), Units(w % 100)]
  {
    assert Decimal(w) == Decimal(w / 10) + [0x30 + w % 10];
    assert Decimal(w / 10) == Decimal(w / 10 / 10) + [0x30 + w / 10 % 10];
    assert w / 10 / 10 == w / 100 && w / 10 % 10 == w % 100 / 10 && w % 10 == w % 100 % 10;
  }

  lemma ChainTextNext(chain: seq<nat>, link: nat)
    ensures ChainText(chain + [link]) == (if chain == [] then [] else ChainText(chain) + [0x20]) + Decimal(link)
    ensures ChainText(chain) == [] <==> chain == []
  {
    assert (chain + [link])[..|chain|] == chain;
    if chain == [] { assert [] + Decimal(link) == Decimal(link); }
  }

  /** The tag buffer's size test never fires before the link count does. */
  lemma {:induction false} ChainTextFits(chain: seq<nat>)
    requires forall k :: 0 <= k < |chain| ==> chain[k] < TWO_64
    ensures |ChainText(chain)| <= 21 * |chain|
  {
    if chain != [] {
      ChainTextFits(chain[..|chain| - 1]);
      Uint64Digits(chain[|chain| - 1]);
    }
  }
}
