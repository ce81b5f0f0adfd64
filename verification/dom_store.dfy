/**
 * The document store: nodes in one array, children as sibling-linked chains, and the builder's stack with its
 * per-frame pairing of map keys and values.
 */
module DomStore {
  import opened Wrappers

  /** UINT32_MAX: no node. */
  const NONE: nat := 0xFFFF_FFFF

  datatype Kind = Leaf | Seq | Map

  datatype Slot<L> = Slot(data: L, kind: Kind, first: nat, last: nat, next: nat, count: nat)

  /** The node array, the document roots, the open containers, and each one's key waiting for its value. */
  datatype Store<L> = Store(nodes: seq<Slot<L>>, docs: seq<nat>, stack: seq<nat>, pending: seq<Option<nat>>)

  function Empty<L>(): Store<L> { Store([], [], [], []) }

  /** Indices stay inside the array. */
  predicate Sound<L>(s: Store<L>) {
    && |s.pending| == |s.stack|
    && (forall d :: 0 <= d < |s.stack| ==> s.stack[d] < |s.nodes| && s.nodes[s.stack[d]].kind != Leaf)
    && (forall d :: 0 <= d < |s.stack| && s.pending[d].Some? ==> s.pending[d].value < |s.nodes|)
    && (forall x :: 0 <= x < |s.nodes| && s.nodes[x].count > 0 ==> s.nodes[x].last < |s.nodes|)
  }

  // ---- the builder's steps ------------------------------------------------------------

  function Fresh<L>(data: L, kind: Kind): Slot<L> {
    Slot(data, kind, NONE, NONE, NONE, 0)
  }

  /** dom_link: child goes behind parent's last child. */
  function Link<L>(nodes: seq<Slot<L>>, parent: nat, child: nat): (r: seq<Slot<L>>)
    requires parent < |nodes| && (nodes[parent].count > 0 ==> nodes[parent].last < |nodes|)
    ensures |r| == |nodes|
  {
    var p := nodes[parent];
    var linked := if p.count == 0 then nodes[parent := p.(first := child)]
                  else nodes[p.last := nodes[p.last].(next := child)];
    linked[parent := linked[parent].(last := child, count := p.count + 1)]
  }

  function Top<T>(s: seq<T>): T
    requires s != []
  {
    s[|s| - 1]
  }

  /** dom_place: a document root, a sequence's child, or in a map first the key, then key and value together. */
  function Place<L>(s: Store<L>, id: nat): (r: Store<L>)
    requires Sound(s)
    ensures |r.nodes| == |s.nodes| && r.stack == s.stack
  {
    if s.stack == [] then s.(docs := s.docs + [id])
    else
      var top := Top(s.stack);
      if s.nodes[top].kind == Map then
        if Top(s.pending).None? then s.(pending := s.pending[|s.pending| - 1 := Some(id)])
        else s.(pending := s.pending[|s.pending| - 1 := None], nodes := Link(Link(s.nodes, top, Top(s.pending).value), top, id))
      else s.(nodes := Link(s.nodes, top, id))
  }

  function Add<L>(s: Store<L>, slot: Slot<L>): Store<L> {
    s.(nodes := s.nodes + [slot])
  }

  lemma LinkSound<L>(nodes: seq<Slot<L>>, parent: nat, child: nat)
    requires parent < |nodes| && child < |nodes|
    requires forall x :: 0 <= x < |nodes| && nodes[x].count > 0 ==> nodes[x].last < |nodes|
    ensures var r := Link(nodes, parent, child);
      && (forall x :: 0 <= x < |r| && r[x].count > 0 ==> r[x].last < |r|)
      && (forall x :: 0 <= x < |r| ==> r[x].kind == nodes[x].kind)
  {}

  lemma PlaceSound<L>(s: Store<L>, id: nat)
    requires Sound(s) && id < |s.nodes|
    ensures Sound(Place(s, id))
  {
    hide Link;
    if s.stack != [] {
      var top := Top(s.stack);
      if s.nodes[top].kind == Map && Top(s.pending).Some? {
        LinkSound(s.nodes, top, Top(s.pending).value);
        LinkSound(Link(s.nodes, top, Top(s.pending).value), top, id);
      } else {
        LinkSound(s.nodes, top, id);
      }
    }
  }

  /** One call on the builder. */
  datatype Call<L> = Item(data: L) | Begin(data: L, isMap: bool) | End

  function ContainerKind(isMap: bool): Kind { if isMap then Map else Seq }

  /** An End with nothing open is the caller's error. */
  function Step<L>(s: Store<L>, c: Call<L>): (r: Option<Store<L>>)
    requires Sound(s)
    ensures r.Some? ==> Sound(r.value)
  {
    match c
    case Item(data) =>
      var id := |s.nodes|;
      PlaceSound(Add(s, Fresh(data, Leaf)), id);
      Some(Place(Add(s, Fresh(data, Leaf)), id))
    case Begin(data, isMap) =>
      var id := |s.nodes|;
      PlaceSound(Add(s, Fresh(data, ContainerKind(isMap))), id);
      PlaceKind(Add(s, Fresh(data, ContainerKind(isMap))), id);
      Some(Push(Place(Add(s, Fresh(data, ContainerKind(isMap))), id), id))
    case End => if s.stack == [] then None else Some(Pop(s))
  }

  function Push<L>(s: Store<L>, id: nat): Store<L> {
    s.(stack := s.stack + [id], pending := s.pending + [None])
  }

  function Pop<L>(s: Store<L>): Store<L>
    requires s.stack != [] && |s.pending| == |s.stack|
  {
    s.(stack := s.stack[..|s.stack| - 1], pending := s.pending[..|s.stack| - 1])
  }

  lemma PlaceKind<L>(s: Store<L>, id: nat)
    requires Sound(s) && id < |s.nodes|
    ensures forall x :: 0 <= x < |s.nodes| ==> Place(s, id).nodes[x].kind == s.nodes[x].kind
  {}

  function Run<L>(s: Store<L>, calls: seq<Call<L>>): (r: Option<Store<L>>)
    requires Sound(s)
    ensures r.Some? ==> Sound(r.value)
    decreases |calls|
  {
    if calls == [] then Some(s)
    else
      match Step(s, calls[0])
      case None => None
      case Some(next) => Run(next, calls[1..])
  }

  // ---- the builder itself --------------------------------------------------------------

  class Dom<L> {
    var nodes: seq<Slot<L>>
    var docs: seq<nat>
    var stack: seq<nat>
    var pending: seq<Option<nat>>

    constructor ()
      ensures State() == Empty()
    {
      nodes, docs, stack, pending := [], [], [], [];
    }

    function State(): Store<L>
      reads this
    {
      Store(nodes, docs, stack, pending)
    }

    method LinkChild(parent: nat, child: nat)
      requires parent < |nodes| && child < |nodes| && (nodes[parent].count > 0 ==> nodes[parent].last < |nodes|)
      modifies `nodes
      ensures nodes == Link(old(nodes), parent, child)
    {
      if nodes[parent].count == 0 {
        nodes := nodes[parent := nodes[parent].(first := child)];
      } else {
        var last := nodes[parent].last;
        nodes := nodes[last := nodes[last].(next := child)];
      }
      nodes := nodes[parent := nodes[parent].(last := child)];
      nodes := nodes[parent := nodes[parent].(count := nodes[parent].count + 1)];
    }

    method PlaceNode(id: nat)
      requires Sound(State()) && id < |nodes|
      modifies this
      ensures State() == Place(old(State()), id) && Sound(State())
    {
      hide Link, Sound;
      PlaceSound(State(), id);
      SoundTop(State());
      if stack == [] {
        docs := docs + [id];
        return;
      }
      var top, d := stack[|stack| - 1], |stack| - 1;
      if nodes[top].kind == Map {
        if pending[d] == None {
          pending := pending[d := Some(id)];
          return;
        }
        var key := pending[d].value;
        pending := pending[d := None];
        LinkTwice(State(), top, key);
        LinkChild(top, key);
        LinkChild(top, id);
        return;
      }
      LinkChild(top, id);
    }

    method OnItem(data: L)
      requires Sound(State())
      modifies this
      ensures Sound(State()) && Step(old(State()), Item(data)) == Some(State())
    {
      hide Place, Sound;
      AddSound(State(), Fresh(data, Leaf));
      nodes := nodes + [Fresh(data, Leaf)];
      PlaceNode(|nodes| - 1);
    }

    method OnBegin(data: L, isMap: bool)
      requires Sound(State())
      modifies this
      ensures Sound(State()) && Step(old(State()), Begin(data, isMap)) == Some(State())
    {
      hide Place, Sound;
      AddSound(State(), Fresh(data, ContainerKind(isMap)));
      var id := |nodes|;
      nodes := nodes + [Fresh(data, ContainerKind(isMap))];
      ghost var added := State();
      PlaceNode(id);
      PushSound(added, id);
      pending := pending + [None];
      stack := stack + [id];
    }

    method OnEnd()
      requires Sound(State()) && stack != []
      modifies this
      ensures Sound(State()) && Step(old(State()), End) == Some(State())
    {
      stack, pending := stack[..|stack| - 1], pending[..|stack| - 1];
    }
  }

  lemma SoundTop<L>(s: Store<L>)
    requires Sound(s)
    ensures |s.pending| == |s.stack|
    ensures s.stack != [] ==>
      && Top(s.stack) < |s.nodes| && s.nodes[Top(s.stack)].kind != Leaf
      && (s.nodes[Top(s.stack)].count > 0 ==> s.nodes[Top(s.stack)].last < |s.nodes|)
      && (Top(s.pending).Some? ==> Top(s.pending).value < |s.nodes|)
  {}

  lemma LinkTwice<L>(s: Store<L>, top: nat, key: nat)
    requires top < |s.nodes| && key < |s.nodes| && (s.nodes[top].count > 0 ==> s.nodes[top].last < |s.nodes|)
    ensures var r := Link(s.nodes, top, key); r[top].count > 0 && r[top].last < |r|
  {}

  lemma AddSound<L>(s: Store<L>, slot: Slot<L>)
    requires Sound(s) && slot.count == 0
    ensures Sound(Add(s, slot))
  {}

  lemma PushSound<L>(s: Store<L>, id: nat)
    requires Sound(s) && id < |s.nodes| && s.nodes[id].kind != Leaf
    ensures Sound(Push(Place(s, id), id))
  {
    hide Place;
    PlaceSound(s, id);
    PlaceKind(s, id);
  }
}
