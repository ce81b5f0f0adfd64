/** What the builder leaves is a forest: every run of builder calls that ends with nothing open. */
module DomBuilt {
  import opened Wrappers
  import opened DomStore
  import opened DomForest

  /** Parents come before their children in the array, so the rank is the distance to its end. */
  function Ranks(n: nat): (r: seq<nat>)
    ensures |r| == n
  {
    seq(n, i requires 0 <= i < n => n - i)
  }

  function ShapeOf(kids: seq<seq<nat>>, owner: seq<Option<nat>>): Shape { Shape(kids, owner, Ranks(|kids|)) }

  predicate Later(kids: seq<seq<nat>>, owner: seq<Option<nat>>, x: nat)
    requires x < |kids| == |owner|
  {
    Distinct(kids[x]) && forall i :: 0 <= i < |kids[x]| ==> x < kids[x][i] < |kids| && owner[kids[x][i]] == Some(x)
  }

  predicate Held(kids: seq<seq<nat>>, owner: seq<Option<nat>>, n: nat)
    requires n < |owner| == |kids|
  {
    owner[n].Some? ==> owner[n].value < n && n in kids[owner[n].value]
  }

  /** Children come after their parents. */
  predicate Ordered(kids: seq<seq<nat>>, owner: seq<Option<nat>>) {
    && |kids| == |owner|
    && (forall x :: 0 <= x < |kids| ==> Later(kids, owner, x))
    && (forall n :: 0 <= n < |kids| ==> Held(kids, owner, n))
  }

  lemma OrderedGraph(kids: seq<seq<nat>>, owner: seq<Option<nat>>)
    requires Ordered(kids, owner)
    ensures Graph(ShapeOf(kids, owner))
  {
    var g := ShapeOf(kids, owner);
    forall x | 0 <= x < |kids| ensures Parent(g, x) { assert Later(kids, owner, x); }
    forall n | 0 <= n < |kids| ensures Listed(g, n) { assert Held(kids, owner, n); }
  }

  /** Chains are right, and what has no parent has no link. */
  predicate Wired(nodes: seq<Node>, kids: seq<seq<nat>>, owner: seq<Option<nat>>) {
    && Ordered(kids, owner) && AllChains(nodes, kids)
    && forall n :: 0 <= n < |nodes| && owner[n].None? ==> nodes[n].next == NONE
  }

  predicate Even(nodes: seq<Node>, kids: seq<seq<nat>>) {
    |kids| == |nodes| && forall x :: 0 <= x < |nodes| && nodes[x].kind == Map ==> |kids[x]| % 2 == 0
  }

  predicate NoParent(owner: seq<Option<nat>>, n: nat) { n < |owner| && owner[n].None? }

  predicate Docs(s: Store<Label>, owner: seq<Option<nat>>) {
    Distinct(s.docs) && forall k :: 0 <= k < |s.docs| ==> NoParent(owner, s.docs[k])
  }

  /** Keys that wait for their values: behind their mapping in the array, no roots, all different. */
  predicate Waiting(s: Store<Label>, owner: seq<Option<nat>>) {
    && |s.pending| == |s.stack|
    && (forall d :: 0 <= d < |s.pending| && s.pending[d].Some? ==>
          NoParent(owner, s.pending[d].value) && s.stack[d] < s.pending[d].value && s.pending[d].value !in s.docs)
    && (forall d, e :: 0 <= d < e < |s.pending| && s.pending[d].Some? && s.pending[e].Some? ==> s.pending[d] != s.pending[e])
  }

  /** The builder between two calls. */
  predicate Building(s: Store<Label>, kids: seq<seq<nat>>, owner: seq<Option<nat>>) {
    Sound(s) && |owner| == |s.nodes| && Wired(s.nodes, kids, owner) && Even(s.nodes, kids) && Docs(s, owner) && Waiting(s, owner)
  }

  lemma WiredAt(nodes: seq<Node>, kids: seq<seq<nat>>, owner: seq<Option<nat>>, x: nat)
    requires Wired(nodes, kids, owner) && x < |nodes|
    ensures |kids| == |owner| == |nodes| && ChainIs(nodes, x, kids[x]) && (nodes[x].kind == Leaf ==> kids[x] == [])
    ensures Later(kids, owner, x) && Held(kids, owner, x)
  {
  }

  // ---- one link ---------------------------------------------------------------------------------------

  lemma LinkWired(nodes: seq<Node>, kids: seq<seq<nat>>, owner: seq<Option<nat>>, p: nat, c: nat)
    requires Wired(nodes, kids, owner) && p < c < |nodes| < NONE && nodes[p].kind != Leaf && |kids| == |owner| == |nodes| && owner[c].None?
    ensures nodes[p].count > 0 ==> nodes[p].last < |nodes|
    ensures Wired(Link(nodes, p, c), kids[p := kids[p] + [c]], owner[c := Some(p)])
  {
    var g := ShapeOf(kids, owner);
    OrderedGraph(kids, owner);
    WiredAt(nodes, kids, owner, p);
    if nodes[p].count > 0 { LastOf(nodes, g, p); }
    LinkedChain(nodes, g, p, c);
    LinkElsewhere(nodes, g, p, c);
    LinkEffect(nodes, p, c);
    hide Link, Graph, Later, Held, ChainIs;
    OthersKept(nodes, Link(nodes, p, c), g, p, kids[p] + [c]);
    LinkOrdered(kids, owner, p, c);
  }

  lemma LinkOrdered(kids: seq<seq<nat>>, owner: seq<Option<nat>>, p: nat, c: nat)
    requires Ordered(kids, owner) && p < c < |kids| == |owner| && owner[c].None?
    ensures Ordered(kids[p := kids[p] + [c]], owner[c := Some(p)])
  {
    var k, o := kids[p := kids[p] + [c]], owner[c := Some(p)];
    forall x | 0 <= x < |k| ensures Later(k, o, x) { assert Later(kids, owner, x); }
    forall n | 0 <= n < |k| ensures Held(k, o, n) {
      assert Held(kids, owner, n);
      if n == c { assert k[p][|kids[p]|] == c; }
    }
  }

  // ---- one node, one call ---------------------------------------------------------------------------------

  lemma AddBuilding(s: Store<Label>, kids: seq<seq<nat>>, owner: seq<Option<nat>>, data: Label, kind: Kind)
    requires Building(s, kids, owner)
    ensures Building(Add(s, Fresh(data, kind)), kids + [[]], owner + [None])
    ensures forall d :: 0 <= d < |s.pending| && s.pending[d].Some? ==> s.pending[d].value < |s.nodes|
    ensures forall k :: 0 <= k < |s.docs| ==> s.docs[k] < |s.nodes|
  {
    AddSound(s, Fresh(data, kind));
    var after, k, o := s.nodes + [Fresh(data, kind)], kids + [[]], owner + [None];
    assert Ordered(k, o) by {
      forall x | 0 <= x < |k| ensures Later(k, o, x) { if x < |kids| { assert Later(kids, owner, x); } }
      forall n | 0 <= n < |k| ensures Held(k, o, n) { if n < |kids| { assert Held(kids, owner, n); } }
    }
    forall x | 0 <= x < |after| ensures ChainIs(after, x, k[x]) && (after[x].kind == Leaf ==> k[x] == []) {
      if x < |kids| {
        assert ChainIs(s.nodes, x, kids[x]);
        forall i | 0 <= i < |kids[x]| ensures LinkAt(after, kids[x], i) { assert LinkAt(s.nodes, kids[x], i); }
      }
    }
  }

  /** Placing the newest node. */
  lemma PlaceBuilding(s: Store<Label>, kids: seq<seq<nat>>, owner: seq<Option<nat>>) returns (k: seq<seq<nat>>, o: seq<Option<nat>>)
    requires Building(s, kids, owner) && 0 < |s.nodes| < NONE
    requires var id := |s.nodes| - 1;
      && owner[id].None? && id !in s.docs && (forall d :: 0 <= d < |s.stack| ==> s.stack[d] < id)
      && forall d :: 0 <= d < |s.pending| && s.pending[d].Some? ==> s.pending[d].value != id
    ensures Building(Place(s, |s.nodes| - 1), k, o)
  {
    var id := |s.nodes| - 1;
    k, o := kids, owner;
    PlaceSound(s, id);
    if s.stack == [] {
      DocPlaced(s, owner, id);
    } else {
      SoundTop(s);
      var top := Top(s.stack);
      if s.nodes[top].kind == Map {
        if Top(s.pending).None? {
          KeyPlaced(s, owner, id);
        } else {
          k, o := kids[top := kids[top] + [Top(s.pending).value, id]], owner[Top(s.pending).value := Some(top)][id := Some(top)];
          hide Link, Sound;
          PairPlaced(s, kids, owner, id);
        }
      } else {
        k, o := kids[top := kids[top] + [id]], owner[id := Some(top)];
        hide Link, Sound;
        ChildPlaced(s, kids, owner, id);
      }
    }
  }

  lemma DocPlaced(s: Store<Label>, owner: seq<Option<nat>>, id: nat)
    requires Docs(s, owner) && Waiting(s, owner) && s.stack == [] && NoParent(owner, id) && id !in s.docs
    ensures Docs(s.(docs := s.docs + [id]), owner) && Waiting(s.(docs := s.docs + [id]), owner)
  {
  }

  lemma KeyPlaced(s: Store<Label>, owner: seq<Option<nat>>, id: nat)
    requires Docs(s, owner) && Waiting(s, owner) && s.stack != [] && NoParent(owner, id) && id !in s.docs && Top(s.stack) < id
    requires forall d :: 0 <= d < |s.pending| && s.pending[d].Some? ==> s.pending[d].value != id
    ensures var r := s.(pending := s.pending[|s.pending| - 1 := Some(id)]); Docs(r, owner) && Waiting(r, owner)
  {
  }

  lemma ChildPlaced(s: Store<Label>, kids: seq<seq<nat>>, owner: seq<Option<nat>>, id: nat)
    requires Building(s, kids, owner) && s.stack != [] && id < |s.nodes| < NONE && NoParent(owner, id) && id !in s.docs && Top(s.stack) < id
    requires s.nodes[Top(s.stack)].kind == Seq && Sound(Place(s, id))
    requires forall d :: 0 <= d < |s.pending| && s.pending[d].Some? ==> s.pending[d].value != id
    ensures Building(Place(s, id), kids[Top(s.stack) := kids[Top(s.stack)] + [id]], owner[id := Some(Top(s.stack))])
  {
    var top := Top(s.stack);
    WiredAt(s.nodes, kids, owner, top);
    hide Link, Sound, Wired;
    LinkWired(s.nodes, kids, owner, top, id);
    SameKinds(s.nodes, top, id);
  }

  lemma SameKinds(nodes: seq<Node>, p: nat, c: nat)
    requires p < |nodes| && c < |nodes| && (nodes[p].count > 0 ==> nodes[p].last < |nodes|)
    ensures forall x :: 0 <= x < |nodes| ==> Link(nodes, p, c)[x].kind == nodes[x].kind
  {
  }

  lemma PairPlaced(s: Store<Label>, kids: seq<seq<nat>>, owner: seq<Option<nat>>, id: nat)
    requires Building(s, kids, owner) && s.stack != [] && id < |s.nodes| < NONE && NoParent(owner, id) && id !in s.docs && Top(s.stack) < id
    requires s.nodes[Top(s.stack)].kind == Map && |s.pending| == |s.stack| && Top(s.pending).Some? && Sound(Place(s, id))
    requires forall d :: 0 <= d < |s.pending| && s.pending[d].Some? ==> s.pending[d].value != id
    ensures |kids| == |owner| == |s.nodes| && Top(s.pending).value < |owner|
    ensures var top, key := Top(s.stack), Top(s.pending).value;
      Building(Place(s, id), kids[top := kids[top] + [key, id]], owner[key := Some(top)][id := Some(top)])
  {
    var top, key := Top(s.stack), Top(s.pending).value;
    WiredAt(s.nodes, kids, owner, top);
    hide Link, Sound, Wired;
    assert NoParent(owner, key);
    LinkWired(s.nodes, kids, owner, top, key);
    SameKinds(s.nodes, top, key);
    var one, k1, o1 := Link(s.nodes, top, key), kids[top := kids[top] + [key]], owner[key := Some(top)];
    LinkWired(one, k1, o1, top, id);
    SameKinds(one, top, id);
    assert k1[top] + [id] == kids[top] + [key, id];
    assert k1[top := k1[top] + [id]] == kids[top := kids[top] + [key, id]];
    hide Docs, Waiting, NoParent;
    PairWaits(s, owner, id);
  }

  lemma PairWaits(s: Store<Label>, owner: seq<Option<nat>>, id: nat)
    requires Docs(s, owner) && Waiting(s, owner) && s.stack != [] && Top(s.pending).Some? && NoParent(owner, id) && id !in s.docs
    requires forall d :: 0 <= d < |s.pending| && s.pending[d].Some? ==> s.pending[d].value != id
    ensures Top(s.pending).value < |owner|
    ensures var top, key := Top(s.stack), Top(s.pending).value;
      var r, o := s.(pending := s.pending[|s.pending| - 1 := None]), owner[key := Some(top)][id := Some(top)];
      Docs(r, o) && Waiting(r, o)
  {
    assert s.pending[|s.pending| - 1].Some?;
  }

  lemma NodeBuilding(s: Store<Label>, kids: seq<seq<nat>>, owner: seq<Option<nat>>, data: Label, kind: Kind)
    returns (k: seq<seq<nat>>, o: seq<Option<nat>>)
    requires Building(s, kids, owner) && |s.nodes| + 1 < NONE
    ensures Sound(Add(s, Fresh(data, kind))) && Building(Place(Add(s, Fresh(data, kind)), |s.nodes|), k, o)
  {
    AddBuilding(s, kids, owner, data, kind);
    NewestWaits(s, kids, owner, data, kind);
    hide Building, Place, Sound;
    k, o := PlaceBuilding(Add(s, Fresh(data, kind)), kids + [[]], owner + [None]);
  }

  lemma NewestWaits(s: Store<Label>, kids: seq<seq<nat>>, owner: seq<Option<nat>>, data: Label, kind: Kind)
    requires Building(s, kids, owner)
    ensures var r, id := Add(s, Fresh(data, kind)), |s.nodes|;
      && |r.nodes| == id + 1 && |owner + [None]| == id + 1 && (owner + [None])[id].None? && id !in r.docs && (forall d :: 0 <= d < |r.stack| ==> r.stack[d] < id)
      && forall d :: 0 <= d < |r.pending| && r.pending[d].Some? ==> r.pending[d].value != id
  {
  }

  lemma PushBuilding(s: Store<Label>, kids: seq<seq<nat>>, owner: seq<Option<nat>>, id: nat)
    requires Building(s, kids, owner) && Sound(Push(s, id))
    ensures Building(Push(s, id), kids, owner)
  {
    hide Wired, Sound;
  }

  lemma StepBuilding(s: Store<Label>, kids: seq<seq<nat>>, owner: seq<Option<nat>>, c: Call<Label>)
    returns (k: seq<seq<nat>>, o: seq<Option<nat>>)
    requires Building(s, kids, owner) && Step(s, c).Some? && |Step(s, c).value.nodes| < NONE
    ensures Building(Step(s, c).value, k, o)
  {
    hide Wired, Place;
    k, o := kids, owner;
    match c
    case Item(data) => k, o := NodeBuilding(s, kids, owner, data, Leaf);
    case Begin(data, isMap) =>
      k, o := NodeBuilding(s, kids, owner, data, ContainerKind(isMap));
      PushSound(Add(s, Fresh(data, ContainerKind(isMap))), |s.nodes|);
      hide Building, Sound;
      PushBuilding(Place(Add(s, Fresh(data, ContainerKind(isMap))), |s.nodes|), k, o, |s.nodes|);
    case End => PopBuilding(s, kids, owner);
  }

  lemma PopBuilding(s: Store<Label>, kids: seq<seq<nat>>, owner: seq<Option<nat>>)
    requires Building(s, kids, owner) && s.stack != []
    ensures |s.pending| == |s.stack| && Building(Pop(s), kids, owner)
  {
    hide Wired;
  }

  lemma {:induction false} RunBuilding(s: Store<Label>, kids: seq<seq<nat>>, owner: seq<Option<nat>>, calls: seq<Call<Label>>)
    returns (k: seq<seq<nat>>, o: seq<Option<nat>>)
    requires Building(s, kids, owner) && Run(s, calls).Some? && |Run(s, calls).value.nodes| < NONE
    ensures Building(Run(s, calls).value, k, o)
    decreases |calls|
  {
    if calls == [] {
      k, o := kids, owner;
    } else {
      hide Building, Sound, Step;
      var next := Step(s, calls[0]).value;
      Grows(next, calls[1..]);
      k, o := StepBuilding(s, kids, owner, calls[0]);
      k, o := RunBuilding(next, k, o, calls[1..]);
    }
  }

  lemma {:induction false} Grows(s: Store<Label>, calls: seq<Call<Label>>)
    requires Sound(s) && Run(s, calls).Some?
    ensures |Run(s, calls).value.nodes| >= |s.nodes|
    decreases |calls|
  {
    if calls != [] {
      StepGrows(s, calls[0]);
      hide Sound, Step;
      Grows(Step(s, calls[0]).value, calls[1..]);
    }
  }

  lemma StepGrows(s: Store<Label>, c: Call<Label>)
    requires Sound(s) && Step(s, c).Some?
    ensures |Step(s, c).value.nodes| >= |s.nodes|
  {
  }

  lemma NothingBuilt()
    ensures Building(Empty(), [], [])
  {
  }

  /** No bit is set: the builder links without the mutations' flags. */
  function Clear(n: nat): (r: seq<bool>)
    ensures |r| == n && forall i :: 0 <= i < n ==> !r[i]
  {
    seq(n, i => false)
  }

  /** Whatever calls the builder is given, the memory is a forest with the documents as roots and pairs in every mapping. */
  lemma BuiltForest(calls: seq<Call<Label>>) returns (g: Shape)
    requires Run(Empty(), calls).Some? && |Run(Empty(), calls).value.nodes| < NONE
    ensures var s := Run(Empty(), calls).value;
      Forest(s.nodes, g, Clear(|s.nodes|), s.docs) && Even(s.nodes, g.kids)
  {
    var s: Store<Label> := Run(Empty(), calls).value;
    NothingBuilt();
    var kids, owner := RunBuilding(Empty(), [], [], calls);
    OrderedGraph(kids, owner);
    g := ShapeOf(kids, owner);
    hide Sound, Waiting, Graph, Ordered, AllChains;
    ForestIs(s.nodes, g, Clear(|s.nodes|), s.docs);
  }
}
