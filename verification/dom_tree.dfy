/**
 * What the builder leaves behind: fed the calls of a tree, it appends exactly the tree's preorder layout, and
 * following the sibling links from its root reads the tree back.
 */
module DomTree {
  import opened Wrappers
  import opened DomStore

  datatype Tree<L> = Tree(data: L, kind: Kind, kids: seq<Tree<L>>)

  /** Leaves have no children and maps have pairs. */
  predicate Paired<L>(t: Tree<L>)
    decreases t
  {
    && (t.kind == Leaf ==> t.kids == [])
    && (t.kind == Map ==> |t.kids| % 2 == 0)
    && forall k :: 0 <= k < |t.kids| ==> Paired(t.kids[k])
  }

  function Calls<L>(t: Tree<L>): seq<Call<L>> {
    if t.kind == Leaf then [Item(t.data)]
    else [Begin(t.data, t.kind == Map)] + CallsAll(t.kids) + [End]
  }

  function CallsAll<L>(ts: seq<Tree<L>>): seq<Call<L>> {
    if ts == [] then [] else CallsAll(ts[..|ts| - 1]) + Calls(ts[|ts| - 1])
  }

  /** Calls of siblings, front first. */
  lemma {:induction false} CallsFront<L>(t: Tree<L>, ts: seq<Tree<L>>)
    ensures CallsAll([t] + ts) == Calls(t) + CallsAll(ts)
    decreases |ts|
  {
    hide Calls;
    var all := [t] + ts;
    if ts == [] {
      assert all[..0] == [] && all[0] == t;
      assert CallsAll(all) == [] + Calls(t);
    } else {
      assert all[..|all| - 1] == [t] + ts[..|ts| - 1];
      CallsFront(t, ts[..|ts| - 1]);
      assert Calls(t) + CallsAll(ts[..|ts| - 1]) + Calls(ts[|ts| - 1]) ==
             Calls(t) + (CallsAll(ts[..|ts| - 1]) + Calls(ts[|ts| - 1]));
    }
  }

  // ---- the preorder layout -----------------------------------------------------------

  function Size<L>(t: Tree<L>): (n: nat)
    ensures n > 0
  {
    1 + SizeAll(t.kids)
  }

  function SizeAll<L>(ts: seq<Tree<L>>): nat {
    if ts == [] then 0 else SizeAll(ts[..|ts| - 1]) + Size(ts[|ts| - 1])
  }

  /** A container's own slot at index c once ts are its children: they start right behind it. */
  function Filled<L>(slot: Slot<L>, c: nat, ts: seq<Tree<L>>): Slot<L> {
    if ts == [] then slot
    else slot.(first := c + 1, last := c + 1 + SizeAll(ts[..|ts| - 1]), count := |ts|)
  }

  function Layout<L>(t: Tree<L>, at: nat): (r: seq<Slot<L>>)
    ensures |r| == Size(t)
    decreases t, 1
  {
    [Filled(Fresh(t.data, t.kind), at, t.kids)] + LayoutAll(t.kids, at + 1)
  }

  /** Siblings from index at on, each one's next the root of the one behind it. */
  function LayoutAll<L>(ts: seq<Tree<L>>, at: nat): (r: seq<Slot<L>>)
    ensures |r| == SizeAll(ts)
    decreases ts, 0
  {
    if ts == [] then []
    else
      var init := ts[..|ts| - 1];
      Chained(LayoutAll(init, at), init, at) + Layout(ts[|ts| - 1], at + SizeAll(init))
  }

  /** The last of the siblings now points at the place behind them. */
  function Chained<L>(nodes: seq<Slot<L>>, ts: seq<Tree<L>>, at: nat): (r: seq<Slot<L>>)
    requires |nodes| == SizeAll(ts)
    ensures |r| == |nodes|
  {
    if ts == [] then nodes
    else
      var last := SizeAll(ts[..|ts| - 1]);
      nodes[last := nodes[last].(next := at + SizeAll(ts))]
  }

  // ---- what feeding a tree does ---------------------------------------------------------

  /** The tree's layout appended and its root placed. */
  function Attach<L>(s: Store<L>, t: Tree<L>): (r: Store<L>)
    requires Sound(s)
    ensures Sound(s.(nodes := s.nodes + Layout(t, |s.nodes|)))
    ensures Sound(r) && |r.nodes| == |s.nodes| + Size(t)
  {
    LayoutSound(s, t);
    PlaceSound(s.(nodes := s.nodes + Layout(t, |s.nodes|)), |s.nodes|);
    Place(s.(nodes := s.nodes + Layout(t, |s.nodes|)), |s.nodes|)
  }

  lemma LayoutSound<L>(s: Store<L>, t: Tree<L>)
    requires Sound(s)
    ensures Sound(s.(nodes := s.nodes + Layout(t, |s.nodes|)))
  {
    LayoutInside(t, |s.nodes|);
  }

  lemma {:induction false} LayoutInside<L>(t: Tree<L>, at: nat)
    ensures forall x :: 0 <= x < Size(t) && Layout(t, at)[x].count > 0 ==> Layout(t, at)[x].last < at + Size(t)
    decreases t, 1
  {
    LayoutAllInside(t.kids, at + 1);
  }

  lemma {:induction false} LayoutAllInside<L>(ts: seq<Tree<L>>, at: nat)
    ensures forall x :: 0 <= x < SizeAll(ts) && LayoutAll(ts, at)[x].count > 0 ==> LayoutAll(ts, at)[x].last < at + SizeAll(ts)
    decreases ts, 0
  {
    if ts != [] {
      LayoutAllInside(ts[..|ts| - 1], at);
      LayoutInside(ts[|ts| - 1], at + SizeAll(ts[..|ts| - 1]));
    }
  }

  lemma LinkExtends<L>(a: seq<Slot<L>>, e: seq<Slot<L>>, parent: nat, child: nat)
    requires parent < |a| && (a[parent].count > 0 ==> a[parent].last < |a|)
    ensures (a + e)[parent] == a[parent] && Link(a + e, parent, child) == Link(a, parent, child) + e
  {}

  /** Placing a node changes nothing at or behind it. */
  lemma PlaceExtends<L>(s: Store<L>, e: seq<Slot<L>>)
    requires Sound(s) && Sound(s.(nodes := s.nodes + e))
    ensures var r := Place(s, |s.nodes|);
      Place(s.(nodes := s.nodes + e), |s.nodes|) == r.(nodes := r.nodes + e)
  {
    hide Link;
    if s.stack != [] {
      var top, id := Top(s.stack), |s.nodes|;
      SoundTop(s);
      if s.nodes[top].kind == Map {
        if Top(s.pending).Some? {
          var key := Top(s.pending).value;
          LinkExtends(s.nodes, e, top, key);
          LinkTwice(s, top, key);
          LinkExtends(Link(s.nodes, top, key), e, top, id);
        }
      } else {
        LinkExtends(s.nodes, e, top, id);
      }
    }
  }

  lemma {:induction false} RunSplit<L>(s: Store<L>, a: seq<Call<L>>, b: seq<Call<L>>)
    requires Sound(s) && Run(s, a).Some?
    ensures Run(s, a + b) == Run(Run(s, a).value, b)
    decreases |a|
  {
    hide Step, Sound;
    if a == [] {
      assert a + b == b;
    } else {
      assert (a + b)[0] == a[0] && (a + b)[1..] == a[1..] + b;
      RunSplit(Step(s, a[0]).value, a[1..], b);
    }
  }

  lemma RunOne<L>(s: Store<L>, c: Call<L>)
    requires Sound(s)
    ensures Run(s, [c]) == Step(s, c)
  {
    hide Step, Sound;
    if Step(s, c).Some? { assert Run(Step(s, c).value, []) == Step(s, c); }
  }

  /** The open container at the end of the store, with nothing in it yet. */
  ghost predicate JustOpened<L>(s: Store<L>) {
    && Sound(s) && s.stack != [] && |s.nodes| > 0 && Top(s.stack) == |s.nodes| - 1
    && s.nodes[|s.nodes| - 1].count == 0 && Top(s.pending) == None
  }

  /** ts fed into it, all of them linked. */
  function Linked<L>(s: Store<L>, ts: seq<Tree<L>>): Store<L>
    requires |s.nodes| > 0
  {
    var c := |s.nodes| - 1;
    s.(nodes := s.nodes[c := Filled(s.nodes[c], c, ts)] + LayoutAll(ts, c + 1))
  }

  /** ts fed into it: in a map with an odd number of them, the last is a key still waiting. */
  function Fed<L>(s: Store<L>, ts: seq<Tree<L>>): Store<L>
    requires |s.nodes| > 0 && s.stack != [] && |s.pending| == |s.stack|
  {
    if s.nodes[|s.nodes| - 1].kind == Map && |ts| % 2 == 1 then
      var l, key := Linked(s, ts[..|ts| - 1]), |s.nodes| + SizeAll(ts[..|ts| - 1]);
      l.(nodes := l.nodes + Layout(ts[|ts| - 1], key), pending := l.pending[|l.pending| - 1 := Some(key)])
    else Linked(s, ts)
  }

  /** A rewritten slot and slots behind it, all pointing inside. */
  lemma ReplacedSound<L>(s: Store<L>, c: nat, slot: Slot<L>, e: seq<Slot<L>>)
    requires Sound(s) && c < |s.nodes| && slot.kind == s.nodes[c].kind
    requires slot.count > 0 ==> slot.last < |s.nodes| + |e|
    requires forall x :: 0 <= x < |e| && e[x].count > 0 ==> e[x].last < |s.nodes| + |e|
    ensures Sound(s.(nodes := s.nodes[c := slot] + e))
  {}

  lemma LinkedSound<L>(s: Store<L>, ts: seq<Tree<L>>)
    requires JustOpened(s)
    ensures Sound(Linked(s, ts)) && |Linked(s, ts).nodes| == |s.nodes| + SizeAll(ts)
  {
    hide LayoutAll, Sound;
    LayoutAllInside(ts, |s.nodes|);
    var c := |s.nodes| - 1;
    ReplacedSound(s, c, Filled(s.nodes[c], c, ts), LayoutAll(ts, c + 1));
  }

  lemma LinkLast<L>(a: seq<Slot<L>>, k: seq<Slot<L>>, e: seq<Slot<L>>, i: nat, id: nat)
    requires |a| > 0 && i < |k| && a[|a| - 1].count > 0 && a[|a| - 1].last == |a| + i
    ensures var c := |a| - 1;
      (a + k + e)[c] == a[c] && |a + k + e| > |a| + i &&
      Link(a + k + e, c, id) == a[c := a[c].(last := id, count := a[c].count + 1)] + k[i := k[i].(next := id)] + e
  {}

  lemma LinkFirst<L>(a: seq<Slot<L>>, e: seq<Slot<L>>, id: nat)
    requires |a| > 0 && a[|a| - 1].count == 0
    ensures var c := |a| - 1;
      (a + e)[c] == a[c] && Link(a + e, c, id) == a[c := a[c].(first := id, last := id, count := 1)] + e
  {}

  /** Linking the next child to a container that holds ts. */
  lemma LinkNext<L>(s: Store<L>, ts: seq<Tree<L>>, e: seq<Slot<L>>)
    requires JustOpened(s)
    ensures var c, l := |s.nodes| - 1, Linked(s, ts);
      && l.nodes[c].count == |ts| && (|ts| > 0 ==> l.nodes[c].last < |l.nodes|)
      && Link(l.nodes + e, c, |l.nodes|) ==
         s.nodes[c := s.nodes[c].(first := c + 1, last := |l.nodes|, count := |ts| + 1)] + Chained(LayoutAll(ts, c + 1), ts, c + 1) + e
  {
    hide LayoutAll, Link, Sound;
    var c, l := |s.nodes| - 1, Linked(s, ts);
    var a, k := s.nodes[c := Filled(s.nodes[c], c, ts)], LayoutAll(ts, c + 1);
    if ts == [] {
      assert a == s.nodes && l.nodes + e == a + (k + e) && k == [];
      LinkFirst(a, k + e, |l.nodes|);
    } else {
      var i := SizeAll(ts[..|ts| - 1]);
      LinkLast(a, k, e, i, |l.nodes|);
    }
  }

  lemma LinkedNext<L>(s: Store<L>, ts: seq<Tree<L>>, t: Tree<L>, e: seq<Slot<L>>)
    requires JustOpened(s)
    ensures var c, l := |s.nodes| - 1, Linked(s, ts);
      && l.nodes[c].count == |ts| && (|ts| > 0 ==> l.nodes[c].last < |l.nodes|)
      && Link(l.nodes + (Layout(t, |l.nodes|) + e), c, |l.nodes|) == Linked(s, ts + [t]).nodes + e
  {
    hide Link, Layout, JustOpened, Linked, Chained, LayoutAll;
    JustOpenedEnd(s);
    LinkedShape(s, ts);
    LinkNext(s, ts, Layout(t, |Linked(s, ts).nodes|) + e);
    FilledSnoc(s.nodes[|s.nodes| - 1], |s.nodes| - 1, ts, t);
    LinkedSnoc(s, ts, t, e);
  }

  lemma LinkedSnoc<L>(s: Store<L>, ts: seq<Tree<L>>, t: Tree<L>, e: seq<Slot<L>>)
    requires |s.nodes| > 0
    ensures var c, at := |s.nodes| - 1, |s.nodes|;
      Linked(s, ts + [t]).nodes + e ==
      s.nodes[c := Filled(s.nodes[c], c, ts + [t])] + Chained(LayoutAll(ts, at), ts, at) + (Layout(t, at + SizeAll(ts)) + e)
  {
    hide *;
    var c, at := |s.nodes| - 1, |s.nodes|;
    var slot := Filled(s.nodes[c], c, ts + [t]);
    LayoutSnoc(ts, t, at);
    LinkedParts(s, ts + [t], slot, LayoutAll(ts + [t], at));
    Regroup(s.nodes[c := slot], Chained(LayoutAll(ts, at), ts, at), Layout(t, at + SizeAll(ts)), e);
  }

  lemma LinkedParts<L>(s: Store<L>, ts: seq<Tree<L>>, slot: Slot<L>, all: seq<Slot<L>>)
    requires |s.nodes| > 0
    requires slot == Filled(s.nodes[|s.nodes| - 1], |s.nodes| - 1, ts) && all == LayoutAll(ts, |s.nodes|)
    ensures Linked(s, ts).nodes == s.nodes[|s.nodes| - 1 := slot] + all
  {}

  lemma LayoutSnoc<L>(ts: seq<Tree<L>>, t: Tree<L>, at: nat)
    ensures LayoutAll(ts + [t], at) == Chained(LayoutAll(ts, at), ts, at) + Layout(t, at + SizeAll(ts))
  {
    hide Layout, Chained, SizeAll;
    assert (ts + [t])[..|ts|] == ts;
  }

  lemma FilledSnoc<L>(slot: Slot<L>, c: nat, ts: seq<Tree<L>>, t: Tree<L>)
    ensures Filled(slot, c, ts + [t]) == slot.(first := c + 1, last := c + 1 + SizeAll(ts), count := |ts| + 1)
  {
    hide SizeAll;
    assert (ts + [t])[..|ts|] == ts;
  }

  lemma Regroup<T>(a: seq<T>, b: seq<T>, c: seq<T>, d: seq<T>)
    ensures a + (b + c) + d == a + b + (c + d)
  {}

  lemma JustOpenedEnd<L>(s: Store<L>)
    requires JustOpened(s)
    ensures Sound(s) && |s.nodes| > 0 && s.nodes[|s.nodes| - 1].count == 0
    ensures s.stack != [] && Top(s.stack) == |s.nodes| - 1 && |s.pending| == |s.stack| && Top(s.pending) == None
  {}

  lemma FedSound<L>(s: Store<L>, ts: seq<Tree<L>>)
    requires JustOpened(s)
    ensures Sound(Fed(s, ts))
  {
    hide JustOpened, Sound, Linked;
    JustOpenedEnd(s);
    if s.nodes[|s.nodes| - 1].kind == Map && |ts| % 2 == 1 {
      var init, last := ts[..|ts| - 1], ts[|ts| - 1];
      LinkedSound(s, init);
      LayoutSound(Linked(s, init), last);
      LinkedShape(s, init);
      PendingSound(Linked(s, init).(nodes := Linked(s, init).nodes + Layout(last, |Linked(s, init).nodes|)),
                   |Linked(s, init).nodes|);
    } else {
      LinkedSound(s, ts);
    }
  }

  lemma LinkedShape<L>(s: Store<L>, ts: seq<Tree<L>>)
    requires JustOpened(s)
    ensures var l := Linked(s, ts);
      && |l.nodes| == |s.nodes| + SizeAll(ts) && l.stack == s.stack && l.pending == s.pending && l.docs == s.docs
      && l.nodes[|s.nodes| - 1].kind == s.nodes[|s.nodes| - 1].kind
  {}

  lemma PendingSound<L>(s: Store<L>, key: nat)
    requires Sound(s) && s.stack != [] && key < |s.nodes|
    ensures |s.pending| == |s.stack| && Sound(s.(pending := s.pending[|s.pending| - 1 := Some(key)]))
  {}

  /** One more tree fed to an open container. */
  lemma AttachFed<L>(s: Store<L>, ts: seq<Tree<L>>, t: Tree<L>)
    requires JustOpened(s) && Sound(Fed(s, ts))
    ensures Attach(Fed(s, ts), t) == Fed(s, ts + [t])
  {
    hide Linked, Link, Sound, JustOpened, Layout;
    JustOpenedEnd(s);
    assert (ts + [t])[..|ts|] == ts;
    LinkedShape(s, ts);
    LinkedShape(s, ts + [t]);
    if s.nodes[|s.nodes| - 1].kind == Map && |ts| % 2 == 1 {
      AttachValue(s, ts[..|ts| - 1], ts[|ts| - 1], t);
      assert ts == ts[..|ts| - 1] + [ts[|ts| - 1]];
    } else {
      LinkedNext(s, ts, t, []);
      NothingBehind(Linked(s, ts).nodes, t, Linked(s, ts + [t]).nodes);
    }
  }

  /** The value that completes a pair: its key is linked, then the value. */
  lemma AttachValue<L>(s: Store<L>, init: seq<Tree<L>>, key: Tree<L>, t: Tree<L>)
    requires JustOpened(s) && Sound(Fed(s, init + [key])) && s.nodes[|s.nodes| - 1].kind == Map && |init| % 2 == 0
    ensures Attach(Fed(s, init + [key]), t) == Linked(s, init + [key] + [t])
  {
    hide Linked, Link, Sound, JustOpened, Layout;
    JustOpenedEnd(s);
    var c, ts, l := |s.nodes| - 1, init + [key], Linked(s, init);
    assert ts[..|init|] == init;
    LinkedShape(s, init);
    LinkedShape(s, ts);
    LinkedShape(s, ts + [t]);
    var lk := Layout(key, |l.nodes|);
    var lt := Layout(t, |l.nodes + lk|);
    Regroup(l.nodes, lk, lt, []);
    assert l.nodes + lk + lt == l.nodes + (lk + lt);
    LinkedNext(s, init, key, lt);
    LayoutCount(s, ts);
    LinkedNext(s, ts, t, []);
    NothingBehind(Linked(s, ts).nodes, t, Linked(s, ts + [t]).nodes);
  }

  lemma NothingBehind<L>(a: seq<Slot<L>>, t: Tree<L>, r: seq<Slot<L>>)
    ensures a + (Layout(t, |a|) + []) == a + Layout(t, |a|) && r + [] == r
  {}

  lemma LayoutCount<L>(s: Store<L>, ts: seq<Tree<L>>)
    requires JustOpened(s) && ts != []
    ensures var init := ts[..|ts| - 1];
      |Linked(s, ts).nodes| == |Linked(s, init).nodes| + Size(ts[|ts| - 1])
  {
    hide Linked, JustOpened;
    LinkedShape(s, ts);
    LinkedShape(s, ts[..|ts| - 1]);
  }

  lemma {:induction false} FeedAll<L>(s: Store<L>, ts: seq<Tree<L>>)
    requires JustOpened(s) && forall k :: 0 <= k < |ts| ==> Paired(ts[k])
    ensures Sound(Fed(s, ts)) && Run(s, CallsAll(ts)) == Some(Fed(s, ts))
    decreases ts, 0
  {
    hide JustOpened, Sound, Linked, Calls, Attach, Fed, Run;
    JustOpenedEnd(s);
    FedSound(s, ts);
    if ts == [] {
      FedNothing(s);
    } else {
      var init, t := ts[..|ts| - 1], ts[|ts| - 1];
      FeedAll(s, init);
      FeedTree(Fed(s, init), t);
      AttachFed(s, init, t);
      assert init + [t] == ts;
      RunSplit(s, CallsAll(init), Calls(t));
    }
  }

  lemma FedNothing<L>(s: Store<L>)
    requires JustOpened(s)
    ensures Sound(s) && Fed(s, []) == s && Run(s, []) == Some(s)
  {
    assert s.nodes[|s.nodes| - 1 := s.nodes[|s.nodes| - 1]] + [] == s.nodes;
  }

  /**
   * Feeding a tree's calls to the builder, whatever it holds and has open, appends the tree's layout and places
   * its root; the stack is as before, and no pairing of any open map is disturbed beyond that one placement.
   */
  lemma {:induction false} FeedTree<L>(s: Store<L>, t: Tree<L>)
    requires Sound(s) && Paired(t)
    ensures Run(s, Calls(t)) == Some(Attach(s, t))
    decreases t, 1
  {
    hide JustOpened, Sound, Linked, Layout, Place, Fed, CallsAll;
    if t.kind == Leaf {
      RunOne(s, Item(t.data));
      LeafLayout(t, |s.nodes|);
    } else {
      var begin := Begin(t.data, t.kind == Map);
      RunOne(s, begin);
      var o := Step(s, begin).value;
      Opened(s, t);
      JustOpenedEnd(o);
      FeedAll(o, t.kids);
      Closed(s, t);
      RunOne(Fed(o, t.kids), End);
      RunSplit(s, [begin], CallsAll(t.kids));
      RunSplit(s, [begin] + CallsAll(t.kids), [End]);
    }
  }

  lemma LeafLayout<L>(t: Tree<L>, at: nat)
    requires t.kind == Leaf && t.kids == []
    ensures Layout(t, at) == [Fresh(t.data, Leaf)]
  {}

  lemma Opened<L>(s: Store<L>, t: Tree<L>)
    requires Sound(s) && t.kind != Leaf
    ensures var o := Step(s, Begin(t.data, t.kind == Map)); o.Some? && JustOpened(o.value)
  {
    hide Sound;
    var one := [Fresh(t.data, t.kind)];
    AddSound(s, one[0]);
    PlaceExtends(s, one);
  }

  /** After the children, popping leaves the tree attached. */
  lemma Closed<L>(s: Store<L>, t: Tree<L>)
    requires Sound(s) && t.kind != Leaf && (t.kind == Map ==> |t.kids| % 2 == 0)
    requires JustOpened(Step(s, Begin(t.data, t.kind == Map)).value)
    requires Sound(Fed(Step(s, Begin(t.data, t.kind == Map)).value, t.kids))
    ensures Step(Fed(Step(s, Begin(t.data, t.kind == Map)).value, t.kids), End) == Some(Attach(s, t))
  {
    hide Sound, Place, JustOpened, LayoutAll;
    var one, layout, id := [Fresh(t.data, t.kind)], Layout(t, |s.nodes|), |s.nodes|;
    AddSound(s, one[0]);
    LayoutSound(s, t);
    PlaceExtends(s, one);
    PlaceExtends(s, layout);
    var placed := Place(s, id);
    var o := Step(s, Begin(t.data, t.kind == Map)).value;
    JustOpenedEnd(o);
    assert o == Push(placed.(nodes := placed.nodes + one), id);
    FedEven(o, t.kids);
    ReplaceEnd(placed.nodes, one[0], Filled(one[0], id, t.kids), LayoutAll(t.kids, id + 1));
    PlaceStack(s, id);
    PoppedAgain(placed, id);
  }

  lemma ReplaceEnd<T>(a: seq<T>, x: T, y: T, e: seq<T>)
    ensures (a + [x])[|a| := y] + e == a + ([y] + e)
  {}

  lemma PlaceStack<L>(s: Store<L>, id: nat)
    requires Sound(s)
    ensures |Place(s, id).pending| == |Place(s, id).stack|
  {}

  lemma FedEven<L>(s: Store<L>, ts: seq<Tree<L>>)
    requires |s.nodes| > 0 && s.stack != [] && |s.pending| == |s.stack|
    requires s.nodes[|s.nodes| - 1].kind == Map ==> |ts| % 2 == 0
    ensures Fed(s, ts) == Linked(s, ts)
  {}

  lemma PoppedAgain<L>(s: Store<L>, id: nat)
    ensures (s.stack + [id])[..|s.stack|] == s.stack && (s.pending + [None])[..|s.pending|] == s.pending
  {}

  // ---- reading the tree back through its links ------------------------------------------------

  /** The node as the encoders walk it: first_child, then next_sibling count times. */
  function ReadNode<L>(nodes: seq<Slot<L>>, id: nat): Option<Tree<L>>
    requires id < |nodes|
    decreases |nodes| - id, 1, 0
  {
    var slot := nodes[id];
    if slot.kind == Leaf then Some(Tree(slot.data, Leaf, []))
    else
      match ReadChain(nodes, id, slot.first, slot.count)
      case None => None
      case Some(kids) => Some(Tree(slot.data, slot.kind, kids))
  }

  function ReadChain<L>(nodes: seq<Slot<L>>, parent: nat, c: nat, count: nat): Option<seq<Tree<L>>>
    requires parent < |nodes|
    decreases |nodes| - parent, 0, count
  {
    if count == 0 then Some([])
    else if !(parent < c < |nodes|) then None
    else
      match ReadNode(nodes, c)
      case None => None
      case Some(t) =>
        match ReadChain(nodes, parent, nodes[c].next, count - 1)
        case None => None
        case Some(ts) => Some([t] + ts)
  }

  ghost predicate ButNext<L>(a: Slot<L>, b: Slot<L>) { a.(next := 0) == b.(next := 0) }

  /** The tree's layout stands at index at, whatever sibling its root has. */
  ghost predicate Stands<L>(nodes: seq<Slot<L>>, t: Tree<L>, at: nat) {
    && at + Size(t) <= |nodes| && ButNext(nodes[at], Layout(t, at)[0])
    && forall x :: 1 <= x < Size(t) ==> nodes[at + x] == Layout(t, at)[x]
  }

  ghost predicate StandAll<L>(nodes: seq<Slot<L>>, ts: seq<Tree<L>>, at: nat) {
    && at + SizeAll(ts) <= |nodes|
    && forall x :: 0 <= x < SizeAll(ts) ==>
      if x == SizeAll(ts[..|ts| - 1]) then ButNext(nodes[at + x], LayoutAll(ts, at)[x])
      else nodes[at + x] == LayoutAll(ts, at)[x]
  }

  lemma LastStands<L>(nodes: seq<Slot<L>>, ts: seq<Tree<L>>, at: nat)
    requires StandAll(nodes, ts, at) && ts != []
    ensures Stands(nodes, ts[|ts| - 1], at + SizeAll(ts[..|ts| - 1]))
  {
    hide Layout, ButNext;
    var init, t := ts[..|ts| - 1], ts[|ts| - 1];
    var size, own := SizeAll(init), Layout(t, at + SizeAll(init));
    forall x | 0 <= x < Size(t) ensures LayoutAll(ts, at)[size + x] == own[x] {}
    hide LayoutAll;
    forall x | 1 <= x < Size(t) ensures nodes[at + size + x] == own[x] {
      assert nodes[at + (size + x)] == LayoutAll(ts, at)[size + x];
    }
    assert nodes[at + (size + 0)] == nodes[at + size];
    assert LayoutAll(ts, at)[size + 0] == own[0];
  }

  lemma InitStands<L>(nodes: seq<Slot<L>>, ts: seq<Tree<L>>, at: nat)
    requires StandAll(nodes, ts, at) && |ts| > 1
    ensures var init := ts[..|ts| - 1];
      StandAll(nodes, init, at) && nodes[at + SizeAll(init[..|init| - 1])].next == at + SizeAll(init)
  {
    hide Layout, ButNext;
    var init := ts[..|ts| - 1];
    var all, kept, r := LayoutAll(init, at), Chained(LayoutAll(init, at), init, at), SizeAll(init[..|init| - 1]);
    assert r < SizeAll(init) && kept == all[r := all[r].(next := at + SizeAll(init))];
    NextOnly(all[r], at + SizeAll(init));
    forall x | 0 <= x < SizeAll(init)
      ensures nodes[at + x] == kept[x]
      ensures if x == r then ButNext(nodes[at + x], all[x]) else nodes[at + x] == all[x]
    {
      assert nodes[at + x] == LayoutAll(ts, at)[x];
    }
    assert nodes[at + r] == kept[r];
  }

  lemma NextOnly<L>(slot: Slot<L>, next: nat)
    ensures ButNext(slot.(next := next), slot)
  {}

  /** Each sibling stands on its own and leads to the next. */
  lemma {:induction false} Sibling<L>(nodes: seq<Slot<L>>, ts: seq<Tree<L>>, at: nat, j: nat)
    requires StandAll(nodes, ts, at) && j < |ts|
    ensures Stands(nodes, ts[j], at + SizeAll(ts[..j]))
    ensures j + 1 < |ts| ==> nodes[at + SizeAll(ts[..j])].next == at + SizeAll(ts[..j + 1])
    decreases |ts|
  {
    hide Stands, StandAll, LayoutAll;
    if j == |ts| - 1 {
      LastStands(nodes, ts, at);
    } else {
      var init := ts[..|ts| - 1];
      InitStands(nodes, ts, at);
      Sibling(nodes, init, at, j);
      assert init[..j] == ts[..j] && init[..j + 1] == ts[..j + 1];
      if j + 1 == |init| { assert init[..j + 1] == init; }
      InBounds(nodes, ts, at, j);
    }
  }

  lemma {:induction false} InBounds<L>(nodes: seq<Slot<L>>, ts: seq<Tree<L>>, at: nat, j: nat)
    requires StandAll(nodes, ts, at) && j < |ts|
    ensures at + SizeAll(ts[..j]) < |nodes|
  {
    SizeGrows(ts, j);
  }

  lemma {:induction false} SizeGrows<L>(ts: seq<Tree<L>>, j: nat)
    requires j < |ts|
    ensures SizeAll(ts[..j]) < SizeAll(ts)
    decreases |ts|
  {
    var init := ts[..|ts| - 1];
    if j < |init| {
      assert init[..j] == ts[..j];
      SizeGrows(init, j);
    } else {
      assert ts[..j] == init;
    }
  }

  /** The layout read through its links is the tree. */
  lemma {:induction false} ReadsBack<L>(nodes: seq<Slot<L>>, t: Tree<L>, at: nat)
    requires Paired(t) && Stands(nodes, t, at)
    ensures at < |nodes| && ReadNode(nodes, at) == Some(t)
    decreases t, 1, 0
  {
    hide LayoutAll, StandAll;
    KidsStand(nodes, t, at);
    if t.kind != Leaf {
      if t.kids != [] { assert t.kids[..0] == []; }
      ChainReadsBack(nodes, t, at, 0);
    }
  }

  lemma KidsStand<L>(nodes: seq<Slot<L>>, t: Tree<L>, at: nat)
    requires Stands(nodes, t, at)
    ensures StandAll(nodes, t.kids, at + 1)
    ensures var slot := nodes[at];
      && slot.data == t.data && slot.kind == t.kind && slot.count == |t.kids|
      && (t.kids != [] ==> slot.first == at + 1)
  {
    var l, first := Layout(t, at), at + 1;
    forall x | 0 <= x < SizeAll(t.kids) ensures nodes[first + x] == LayoutAll(t.kids, first)[x] {
      assert nodes[at + (1 + x)] == l[1 + x];
    }
    if t.kids != [] { SameSlotNext(LayoutAll(t.kids, first)[SizeAll(t.kids[..|t.kids| - 1])]); }
  }

  lemma {:induction false} ChainReadsBack<L>(nodes: seq<Slot<L>>, t: Tree<L>, at: nat, j: nat)
    requires at < |nodes| && StandAll(nodes, t.kids, at + 1) && j <= |t.kids| && Paired(t)
    ensures ReadChain(nodes, at, if j < |t.kids| then at + 1 + SizeAll(t.kids[..j]) else NONE, |t.kids| - j) == Some(t.kids[j..])
    decreases t, 0, |t.kids| - j
  {
    hide StandAll, Stands, ReadNode;
    if j < |t.kids| {
      var c := at + 1 + SizeAll(t.kids[..j]);
      InBounds(nodes, t.kids, at + 1, j);
      Sibling(nodes, t.kids, at + 1, j);
      ReadsBack(nodes, t.kids[j], c);
      ChainReadsBack(nodes, t, at, j + 1);
      assert t.kids[j..] == [t.kids[j]] + t.kids[j + 1..];
      if j + 1 == |t.kids| { assert ReadChain(nodes, at, nodes[c].next, 0) == Some([]); }
    }
  }

  /**
   * One document: fed the calls of any paired tree from the start, the builder ends with its stack empty and one
   * root, and the tree that the sibling links spell is the tree that was fed.
   */
  lemma Builds<L>(t: Tree<L>)
    requires Paired(t)
    ensures var r := Run(Empty(), Calls(t));
      && r.Some? && r.value.docs == [0] && r.value.stack == [] && r.value.pending == [] && |r.value.nodes| == Size(t)
      && ReadNode(r.value.nodes, 0) == Some(t)
  {
    hide Layout;
    FeedTree(Empty(), t);
    assert Empty<L>().nodes + Layout(t, 0) == Layout(t, 0);
    SameSlot(Layout(t, 0));
    ReadsBack(Layout(t, 0), t, 0);
  }

  lemma SameSlotNext<L>(slot: Slot<L>)
    ensures ButNext(slot, slot)
  {}

  lemma SameSlot<L>(nodes: seq<Slot<L>>)
    requires |nodes| > 0
    ensures ButNext(nodes[0], nodes[0])
  {}

  // ---- what never happens while a paired tree is fed --------------------------------------------

  /** The call finds what it needs: room on the stack, something to close, and no map closed between key and value. */
  predicate CallOk<L>(s: Store<L>, c: Call<L>, limit: nat)
    requires Sound(s)
  {
    match c
    case Item(_) => true
    case Begin(_, _) => |s.stack| < limit
    case End => s.stack != [] && (s.nodes[Top(s.stack)].kind == Map ==> Top(s.pending) == None)
  }

  predicate RunSafe<L>(s: Store<L>, calls: seq<Call<L>>, limit: nat)
    requires Sound(s)
    decreases |calls|
  {
    calls == [] || (CallOk(s, calls[0], limit) && Step(s, calls[0]).Some? && RunSafe(Step(s, calls[0]).value, calls[1..], limit))
  }

  lemma {:induction false} SafeJoin<L>(s: Store<L>, a: seq<Call<L>>, b: seq<Call<L>>, limit: nat)
    requires Sound(s) && RunSafe(s, a, limit) && Run(s, a).Some? && RunSafe(Run(s, a).value, b, limit)
    ensures RunSafe(s, a + b, limit)
    decreases |a|
  {
    hide Step, Sound, CallOk;
    if a == [] {
      assert a + b == b;
    } else {
      assert (a + b)[0] == a[0] && (a + b)[1..] == a[1..] + b;
      SafeJoin(Step(s, a[0]).value, a[1..], b, limit);
    }
  }

  lemma SafeOne<L>(s: Store<L>, c: Call<L>, limit: nat)
    requires Sound(s) && CallOk(s, c, limit) && Step(s, c).Some?
    ensures RunSafe(s, [c], limit)
  {
    hide Step, Sound, CallOk;
    assert RunSafe(Step(s, c).value, [], limit);
  }

  /** Containers nest at most d deep. */
  predicate Fits<L>(t: Tree<L>, d: nat)
    decreases t
  {
    t.kind == Leaf || (d > 0 && forall k :: 0 <= k < |t.kids| ==> Fits(t.kids[k], d - 1))
  }

  lemma {:induction false} SafeAll<L>(s: Store<L>, ts: seq<Tree<L>>, limit: nat)
    requires JustOpened(s) && forall k :: 0 <= k < |ts| ==> Paired(ts[k])
    requires |s.stack| <= limit && forall k :: 0 <= k < |ts| ==> Fits(ts[k], limit - |s.stack|)
    ensures Sound(s) && RunSafe(s, CallsAll(ts), limit)
    decreases ts, 0
  {
    hide JustOpened, Sound, Linked, Calls, Fed, Run, Paired, Fits;
    JustOpenedEnd(s);
    if ts != [] {
      var init, t := ts[..|ts| - 1], ts[|ts| - 1];
      SafeAll(s, init, limit);
      FeedAll(s, init);
      FedStack(s, init);
      SafeTree(Fed(s, init), t, limit);
      SafeJoin(s, CallsAll(init), Calls(t), limit);
    }
  }

  lemma FedStack<L>(s: Store<L>, ts: seq<Tree<L>>)
    requires JustOpened(s)
    ensures Fed(s, ts).stack == s.stack
  {}

  /** While a paired tree within the limit is fed, every call finds what it needs. */
  lemma {:induction false} SafeTree<L>(s: Store<L>, t: Tree<L>, limit: nat)
    requires Sound(s) && Paired(t) && |s.stack| <= limit && Fits(t, limit - |s.stack|)
    ensures RunSafe(s, Calls(t), limit)
    decreases t, 1
  {
    hide JustOpened, Sound, Linked, Fed, CallsAll, Run, RunSafe, Place;
    if t.kind == Leaf {
      SafeOne(s, Item(t.data), limit);
    } else {
      var begin := Begin(t.data, t.kind == Map);
      var o := Step(s, begin).value;
      Opened(s, t);
      JustOpenedEnd(o);
      SafeOne(s, begin, limit);
      RunOne(s, begin);
      OpenedShape(s, t);
      SafeAll(o, t.kids, limit);
      FeedAll(o, t.kids);
      SafeJoin(s, [begin], CallsAll(t.kids), limit);
      RunSplit(s, [begin], CallsAll(t.kids));
      EndSafe(o, t.kids, limit);
      SafeJoin(s, [begin] + CallsAll(t.kids), [End], limit);
    }
  }

  lemma OpenedShape<L>(s: Store<L>, t: Tree<L>)
    requires Sound(s) && t.kind != Leaf && JustOpened(Step(s, Begin(t.data, t.kind == Map)).value)
    ensures var o := Step(s, Begin(t.data, t.kind == Map)).value;
      |o.stack| == |s.stack| + 1 && o.nodes[|o.nodes| - 1].kind == t.kind
  {
    hide Place, Sound;
    AddSound(s, Fresh(t.data, t.kind));
    PlaceKind(Add(s, Fresh(t.data, t.kind)), |s.nodes|);
  }

  lemma EndSafe<L>(s: Store<L>, ts: seq<Tree<L>>, limit: nat)
    requires JustOpened(s) && Sound(Fed(s, ts)) && (s.nodes[|s.nodes| - 1].kind == Map ==> |ts| % 2 == 0)
    ensures RunSafe(Fed(s, ts), [End], limit)
  {
    hide Sound;
    JustOpenedEnd(s);
    FedEven(s, ts);
    SafeOne(Fed(s, ts), End, limit);
  }

  /** A prefix of a safe run is safe, and so is its next call. */
  lemma {:induction false} SafePrefix<L>(s: Store<L>, calls: seq<Call<L>>, k: nat, limit: nat)
    requires Sound(s) && RunSafe(s, calls, limit) && k < |calls|
    ensures Run(s, calls[..k]).Some?
    ensures var r := Run(s, calls[..k]).value;
      CallOk(r, calls[k], limit) && Step(r, calls[k]).Some? && Run(s, calls[..k + 1]) == Step(r, calls[k])
    decreases k
  {
    hide Step, Sound, CallOk;
    if k == 0 {
      RunOne(s, calls[0]);
      assert calls[..1] == [calls[0]];
    } else {
      SafePrefix(Step(s, calls[0]).value, calls[1..], k - 1, limit);
      assert calls[..k][1..] == calls[1..][..k - 1] && calls[..k + 1][1..] == calls[1..][..k];
    }
  }
}
