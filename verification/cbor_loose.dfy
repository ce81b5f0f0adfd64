/**
 * The reading the decoder's loop follows: a container closes at its break though a tag is pending, and the pending
 * chain goes on to the next item, or is dropped behind the last. Where no break follows a tag it is the reading.
 */
module CborLoose {
  import opened Bytes
  import opened CborRead

  /** The sink calls made, where reading stopped and the chain still pending there; or why it failed. */
  datatype Loose = Left(events: seq<Event>, next: nat, chain: seq<nat>) | Lost(events: seq<Event>, status: Status)

  function Ahead(events: seq<Event>, o: Loose): Loose {
    match o
    case Left(e, n, chain) => Left(events + e, n, chain)
    case Lost(e, s) => Lost(events + e, s)
  }

  /** The rest of a container, with a tag chain pending. */
  function LooseBody(p: seq<byte>, i: nat, chain: seq<nat>, f: Frame, depth: nat, strict: bool): (o: Loose)
    requires i <= |p|
    ensures o.Left? ==> i <= o.next <= |p|
    decreases |p| - i
  {
    if f.rem == Items(0) then Left([Close(f.isMap)], i, chain)
    else if f.rem == UntilBreak && i < |p| && p[i] == 0xFF then
      if f.isMap && f.consumed % 2 == 1 then Lost([], Parse) else Left([Close(f.isMap)], i + 1, chain)
    else
      match ReadHead(p, i, chain, f.KeySlot(), depth, strict, true)
      case Reject(s) => Lost([], s)
      case Tag(link, j) => LooseBody(p, j, chain + [link], f, depth, strict)
      case Leaf(e, j) => Ahead([e], LooseBody(p, j, [], f.Next(), depth, strict))
      case Begin(isMap, rem, tag, j) =>
        match LooseBody(p, j, [], Frame(rem, 0, isMap), depth + 1, strict)
        case Lost(e, s) => Lost([Open(isMap, rem, tag)] + e, s)
        case Left(e, k, pending) => Ahead([Open(isMap, rem, tag)] + e, LooseBody(p, k, pending, f.Next(), depth, strict))
  }

  /** The top-level item, with a tag chain pending. */
  function LooseItem(p: seq<byte>, i: nat, chain: seq<nat>, strict: bool): (o: Loose)
    requires i <= |p|
    ensures o.Left? ==> i < o.next <= |p|
    decreases |p| - i
  {
    match ReadHead(p, i, chain, false, 0, strict, true)
    case Reject(s) => Lost([], s)
    case Tag(link, j) => LooseItem(p, j, chain + [link], strict)
    case Leaf(e, j) => Left([e], j, [])
    case Begin(isMap, rem, tag, j) => Ahead([Open(isMap, rem, tag)], LooseBody(p, j, [], Frame(rem, 0, isMap), 1, strict))
  }

  function LooseRead(p: seq<byte>, strict: bool): (o: Loose)
    ensures o.Left? ==> 0 < o.next <= |p|
  {
    LooseItem(p, 0, [], strict)
  }

  // ---- against the reading --------------------------------------------------------------

  /** The same calls, the same end; where the reading is malformed at a break, the calls go on with the close. */
  predicate Follows(o: Outcome, l: Loose) {
    match o
    case Done(e, n) => l == Left(e, n, [])
    case Failed(e, s) => if s == TagBeforeBreak then e < l.events && l.events[|e|].Close? else l == Lost(e, s)
  }

  lemma FollowsAhead(e: seq<Event>, o: Outcome, l: Loose)
    requires Follows(o, l)
    ensures Follows(Prepend(e, o), Ahead(e, l))
  {
    if o.Failed? && o.status == TagBeforeBreak {
      assert (e + l.events)[|e + o.events|] == l.events[|o.events|];
      assert e + l.events[..|o.events|] == (e + l.events)[..|e + o.events|];
    }
  }

  /** What was malformed stays so, whatever is read behind it. */
  lemma FollowsOn(o: Outcome, l: Loose, more: seq<Event>)
    requires Follows(o, l) && o.Failed? && o.status == TagBeforeBreak
    ensures o.events < l.events + more && (l.events + more)[|o.events|].Close?
  {
  }

  /** An item in frame f, then the rest of f. */
  function ItemAndRest(p: seq<byte>, i: nat, chain: seq<nat>, f: Frame, depth: nat, strict: bool): Outcome
    requires i <= |p| && f.rem != Items(0)
  {
    match ReadItem(p, i, chain, f, depth, strict, true)
    case Failed(e, s) => Failed(e, s)
    case Done(e, j) => Prepend(e, ReadBody(p, j, f.Next(), depth, strict, true))
  }

  lemma {:induction false} ItemFollows(p: seq<byte>, i: nat, chain: seq<nat>, f: Frame, depth: nat, strict: bool)
    requires i <= |p| && f.rem != Items(0) && (chain == [] ==> !(f.rem == UntilBreak && i < |p| && p[i] == 0xFF))
    ensures Follows(ItemAndRest(p, i, chain, f, depth, strict), LooseBody(p, i, chain, f, depth, strict))
    decreases |p| - i, 1
  {
    hide ReadHead, ReadBody, Follows;
    if f.rem == UntilBreak && i < |p| && p[i] == 0xFF {
      AtBreak(p, i, chain, f, depth, strict);
    } else {
      match ReadHead(p, i, chain, f.KeySlot(), depth, strict, true)
      case Reject(s) => BothFail([], s);
      case Tag(link, j) => ItemFollows(p, j, chain + [link], f, depth, strict);
      case Leaf(e, j) =>
        BodyFollows(p, j, f.Next(), depth, strict);
        FollowsAhead([e], ReadBody(p, j, f.Next(), depth, strict, true), LooseBody(p, j, [], f.Next(), depth, strict));
      case Begin(isMap, rem, tag, j) =>
        BodyFollows(p, j, Frame(rem, 0, isMap), depth + 1, strict);
        Entered(p, i, chain, f, depth, strict, tag, Frame(rem, 0, isMap), j);
    }
  }

  lemma BothFail(e: seq<Event>, s: Status)
    requires s != TagBeforeBreak
    ensures Follows(Failed(e, s), Lost(e, s))
  {
  }

  /** A break with a tag pending: the reading stops, the loop closes the container. */
  lemma AtBreak(p: seq<byte>, i: nat, chain: seq<nat>, f: Frame, depth: nat, strict: bool)
    requires i < |p| && p[i] == 0xFF && chain != [] && f.rem == UntilBreak
    ensures Follows(ItemAndRest(p, i, chain, f, depth, strict), LooseBody(p, i, chain, f, depth, strict))
  {
    hide ReadBody;
  }

  lemma {:induction false} Entered(p: seq<byte>, i: nat, chain: seq<nat>, f: Frame, depth: nat, strict: bool, tag: seq<byte>,
                                     child: Frame, j: nat)
    requires i < j <= |p| && f.rem != Items(0) && !(f.rem == UntilBreak && i < |p| && p[i] == 0xFF)
    requires Follows(ReadBody(p, j, child, depth + 1, strict, true), LooseBody(p, j, [], child, depth + 1, strict))
    requires child.consumed == 0 && ReadHead(p, i, chain, f.KeySlot(), depth, strict, true) == Begin(child.isMap, child.rem, tag, j)
    ensures Follows(ItemAndRest(p, i, chain, f, depth, strict), LooseBody(p, i, chain, f, depth, strict))
    decreases |p| - i, 0
  {
    hide ReadHead;
    var open := Open(child.isMap, child.rem, tag);
    var o, l := ReadBody(p, j, child, depth + 1, strict, true), LooseBody(p, j, [], child, depth + 1, strict);
    hide ReadBody;
    FollowsAhead([open], o, l);
    match o
    case Done(e, k) =>
      BodyFollows(p, k, f.Next(), depth, strict);
      FollowsAhead([open] + e, ReadBody(p, k, f.Next(), depth, strict, true), LooseBody(p, k, [], f.Next(), depth, strict));
    case Failed(e, s) =>
      if s == TagBeforeBreak && l.Left? {
        FollowsOn(Prepend([open], o), Ahead([open], l), LooseBody(p, l.next, l.chain, f.Next(), depth, strict).events);
      }
  }

  lemma {:induction false} BodyFollows(p: seq<byte>, i: nat, f: Frame, depth: nat, strict: bool)
    requires i <= |p|
    ensures Follows(ReadBody(p, i, f, depth, strict, true), LooseBody(p, i, [], f, depth, strict))
    decreases |p| - i, 2
  {
    hide ReadHead, ReadItem;
    if f.rem != Items(0) && !(f.rem == UntilBreak && i < |p| && p[i] == 0xFF) {
      ItemFollows(p, i, [], f, depth, strict);
    }
  }

  lemma {:induction false} TopFollows(p: seq<byte>, i: nat, chain: seq<nat>, strict: bool)
    requires i <= |p|
    ensures Follows(ReadItem(p, i, chain, TOP, 0, strict, true), LooseItem(p, i, chain, strict))
    decreases |p| - i
  {
    hide ReadHead, ReadBody, LooseBody;
    match ReadHead(p, i, chain, false, 0, strict, true)
    case Reject(s) => BothFail([], s);
    case Tag(link, j) => TopFollows(p, j, chain + [link], strict);
    case Leaf(e, j) =>
    case Begin(isMap, rem, tag, j) =>
      BodyFollows(p, j, Frame(rem, 0, isMap), 1, strict);
      FollowsAhead([Open(isMap, rem, tag)], ReadBody(p, j, Frame(rem, 0, isMap), 1, strict, true),
                   LooseBody(p, j, [], Frame(rem, 0, isMap), 1, strict));
  }

  /**
   * The loop's reading is the reading wherever no break follows a tag: the same calls, the same end, the same
   * failure. Where one does the reading is malformed, and the loop goes on with the container's close.
   */
  lemma LooseIsRead(p: seq<byte>, strict: bool)
    ensures Follows(Read(p, strict), LooseRead(p, strict))
  {
    TopFollows(p, 0, [], strict);
  }

  /** `9f c1 ff`: malformed, and decoded as an empty array with the tag dropped. */
  lemma TagBeforeBreakAccepted(strict: bool)
    ensures Read([0x9F, 0xC1, 0xFF], strict) == Failed([Open(false, UntilBreak, [])], TagBeforeBreak)
    ensures LooseRead([0x9F, 0xC1, 0xFF], strict) == Left([Open(false, UntilBreak, []), Close(false)], 3, [1])
  {
    hide ChainText;
    var p: seq<byte> := [0x9F, 0xC1, 0xFF];
    var f := Frame(UntilBreak, 0, false);
    assert ChainText([]) == [] by { NoChain(); }
    assert ReadHead(p, 0, [], false, 0, strict, true) == Begin(false, UntilBreak, [], 1);
    assert ReadHead(p, 1, [], false, 1, strict, true) == Tag(1, 2);
    assert ReadItem(p, 2, [] + [1], f, 1, strict, true) == Failed([], TagBeforeBreak);
    assert ReadItem(p, 1, [], f, 1, strict, true) == Failed([], TagBeforeBreak);
    assert ReadBody(p, 1, f, 1, strict, true) == Failed([], TagBeforeBreak);
    assert LooseBody(p, 2, [] + [1], f, 1, strict) == Left([Close(false)], 3, [1]);
    assert LooseBody(p, 1, [], f, 1, strict) == Left([Close(false)], 3, [1]);
  }

  lemma NoChain()
    ensures ChainText([]) == []
  {}
}
