/** The mutation API on the document store: building, moving and removing nodes, with the lazy key index beside it. */
module DomMutate {
  import opened Wrappers
  import opened DomStore
  import opened DomForest
  import opened DomIndex
  import opened DomDepth
  import opened DomLevels
  import DomBuilt
  import OpenAddress

  const MAX_DEPTH: nat := 1000

  /** Endless: the walk that renews the depths does not come back. */
  datatype Status = Done | Replaced | Error | Duplicate | TooDeep | Attached | Endless

  // ---- what a mapping is searched for ------------------------------------------------------

  /** map_find: the first child in a key place with that text, whatever its kind, from place i on. */
  function FindKey(nodes: seq<Node>, ch: seq<nat>, key: Text, i: nat): (r: Option<nat>)
    requires Inside(nodes, ch) && i <= |ch| && |ch| % 2 == 0 && i % 2 == 0
    ensures r.Some? ==> i <= r.value && r.value + 1 < |ch| && r.value % 2 == 0 && nodes[ch[r.value]].data.text == key
    ensures r.Some? ==> forall j :: i <= j < r.value && j % 2 == 0 ==> nodes[ch[j]].data.text != key
    ensures r.None? ==> forall j :: i <= j < |ch| && j % 2 == 0 ==> nodes[ch[j]].data.text != key
    decreases |ch| - i
  {
    if i == |ch| then None
    else if nodes[ch[i]].data.text == key then Some(i)
    else FindKey(nodes, ch, key, i + 2)
  }

  /** Mappings hold keys and values alternately. */
  predicate Balanced(nodes: seq<Node>, kids: seq<seq<nat>>) {
    |kids| == |nodes| && forall x :: 0 <= x < |nodes| && nodes[x].kind == Map ==> |kids[x]| % 2 == 0
  }

  /** Tables are only kept for mappings, and none is stale. */
  ghost predicate Tables(nodes: seq<Node>, kids: seq<seq<nat>>, hash: Text -> nat, tabs: seq<Option<Slots>>, lays: seq<Lay>) {
    && |kids| == |nodes| && |lays| == |tabs|
    && forall m :: 0 <= m < |tabs| && tabs[m].Some? ==>
         m < |nodes| && nodes[m].kind == Map && TableOf(nodes, kids[m], hash, tabs[m].value, lays[m])
  }

  /** A table outlives every change that leaves its mapping's chain and the labels alone. */
  lemma TablesKept(nodes: seq<Node>, after: seq<Node>, kids: seq<seq<nat>>, now: seq<seq<nat>>, hash: Text -> nat,
                   tabs: seq<Option<Slots>>, lays: seq<Lay>)
    requires Tables(nodes, kids, hash, tabs, lays) && |now| == |after|
    requires forall m :: 0 <= m < |tabs| && tabs[m].Some? ==>
      m < |after| && after[m].kind == nodes[m].kind && now[m] == kids[m] && Inside(after, kids[m])
    requires forall n :: 0 <= n < |nodes| && n < |after| ==> after[n].data == nodes[n].data
    ensures Tables(after, now, hash, tabs, lays)
  {
    forall m | 0 <= m < |tabs| && tabs[m].Some? ensures TableOf(after, now[m], hash, tabs[m].value, lays[m]) {
      EntriesSame(nodes, after, kids[m], hash, |kids[m]|);
    }
  }

  lemma ChainInside(nodes: seq<Node>, x: nat, ch: seq<nat>)
    requires ChainIs(nodes, x, ch)
    ensures Inside(nodes, ch)
  {
    forall i | 0 <= i < |ch| ensures ch[i] < |nodes| { assert LinkAt(nodes, ch, i); }
  }

  class Document {
    const hash: Text -> nat
    var nodes: seq<Node>
    var att: seq<bool>
    var depth: seq<nat>
    var roots: seq<nat>
    var tabs: seq<Option<Slots>>
    ghost var g: Shape
    ghost var lays: seq<Lay>

    ghost predicate Valid()
      reads this
    {
      && Forest(nodes, g, att, roots) && Balanced(nodes, g.kids) && |depth| == |nodes|
      && Tables(nodes, g.kids, hash, tabs, lays)
    }

    constructor (hash: Text -> nat)
      ensures Valid() && nodes == [] && roots == [] && g.kids == [] && Stepped(g, depth)
    {
      this.hash := hash;
      nodes, att, depth, roots, tabs := [], [], [], [], [];
      g, lays := Shape([], [], []), [];
    }

    /** A document as the builder leaves it: no bit set, no depth, no table. */
    constructor Parsed(hash: Text -> nat, built: Store<Label>, ghost calls: seq<Call<Label>>)
      requires Run(Empty(), calls) == Some(built) && |built.nodes| < NONE
      ensures Valid() && nodes == built.nodes && roots == built.docs && att == DomBuilt.Clear(|nodes|)
      ensures this.hash == hash && depth == seq(|nodes|, i => 0)
    {
      ghost var shape := DomBuilt.BuiltForest(calls);
      this.hash := hash;
      nodes, roots, tabs := built.nodes, built.docs, [];
      att, depth := seq(|built.nodes|, i => false), seq(|built.nodes|, i => 0);
      g, lays := shape, [];
      new;
      assert att == DomBuilt.Clear(|nodes|);
    }

    /** Every child and root has its bit: so it is when the document was made by mutations alone. */
    ghost predicate AllFlagged()
      reads this
    {
      Flagged(g, att, roots)
    }

    /** What one link needs of a child. */
    ghost predicate Joins(p: nat, c: nat)
      requires Valid() && c < |nodes|
      reads this
    {
      GraphOf(nodes, g, att, roots);
      JoinFits(nodes, g, roots, p, c)
    }

    /** The children of x, in order. */
    ghost function Kids(x: nat): (s: seq<nat>)
      requires Valid() && x < |nodes|
      reads this
      ensures Inside(nodes, s) && s == g.kids[x] && (nodes[x].kind == Map ==> |s| % 2 == 0)
    {
      At(x);
      g.kids[x]
    }

    /** n is x or somewhere below it. */
    ghost predicate Below(x: nat, n: nat)
      requires Valid() && x < |nodes|
      reads this
    {
      Under(g, x, n)
    }

    lemma At(x: nat)
      requires Valid() && x < |nodes|
      ensures ChainIs(nodes, x, g.kids[x]) && Inside(nodes, g.kids[x]) && (nodes[x].kind == Leaf ==> g.kids[x] == [])
      ensures nodes[x].kind == Map ==> |g.kids[x]| % 2 == 0
    {
      ForestAt(nodes, g, att, roots, x);
      ChainInside(nodes, x, g.kids[x]);
    }

    // ---- the key index ---------------------------------------------------------------------

    /** tab_build: the table of a mapping's scalar keys, one pass over its chain. */
    method TabBuild(x: nat) returns (slots: Slots, ghost lay: Lay)
      requires Valid() && x < |nodes| && nodes[x].kind == Map
      ensures TableOf(nodes, g.kids[x], hash, slots, lay)
    {
      hide Forest, Tables, ChainIs, OpenAddress.Laid, NextIn, Graph;
      GraphOf(nodes, g, att, roots);
      At(x);
      ghost var ch := g.kids[x];
      ChainHead(nodes, x, ch);
      FewEntries(nodes, ch, hash, |ch|);
      var cap := TabCap(nodes[x].count / 2);
      var t := new OpenAddress.Cell<Entry>[cap](i => OpenAddress.Empty);
      lay := OpenAddress.Layout([], [], []);
      assert t[..] == OpenAddress.Clear(cap);
      OpenAddress.ClearIsLaid<Entry>(cap, Home(cap));
      var id, wantKey := nodes[x].first, true;
      ghost var i := 0;
      while id != NONE
        invariant i <= |ch| && id == (if i < |ch| then ch[i] else NONE) && wantKey == (i % 2 == 0)
        invariant t.Length == cap && lay.log == Entries(nodes, ch, hash, i)
        invariant OpenAddress.Laid(t[..], Home(cap), lay)
        decreases |ch| - i
      {
        ChainStep(nodes, x, ch, i);
        FewEntries(nodes, ch, hash, i);
        var cur := nodes[id];
        if wantKey && cur.data.scalar {
          lay := Settle(t, hash(cur.data.text), id, lay);
        }
        wantKey := !wantKey;
        id := cur.next;
        i := i + 1;
      }
      ChainStep(nodes, x, ch, i);
      slots := t[..];
    }

    /** yep_midx_lookup: the table is built on first use, and answers as the scan would. */
    method Lookup(x: nat, key: Text) returns (r: Option<nat>)
      requires Valid()
      modifies `tabs, `lays
      ensures Valid()
      ensures r == if x < |nodes| && nodes[x].kind == Map then Scan(nodes, Kids(x), key, 0) else None
      ensures r.Some? ==> x < |nodes| && nodes[x].kind == Map && exists k :: 0 <= k < |Kids(x)| && FirstKey(nodes, Kids(x), key, 0, k) && r == Some(Kids(x)[k])
      ensures r.None? && x < |nodes| && nodes[x].kind == Map ==> forall k :: 0 <= k < |Kids(x)| ==> !HasKey(nodes, Kids(x), key, k)
    {
      hide FirstKey, HasKey, Scan;
      if x < |nodes| && nodes[x].kind == Map { ScanExactly(nodes, Kids(x), key, 0); }
      if x >= |nodes| {
        return None;
      }
      if |tabs| < |nodes| {
        Grow(|nodes|);
      }
      if tabs[x].None? {
        if nodes[x].kind != Map {
          return None;
        }
        var slots, lay := TabBuild(x);
        tabs, lays := tabs[x := Some(slots)], lays[x := lay];
      }
      r := Probe(tabs[x].value, lays[x], x, key);
    }

    method Grow(need: nat)
      requires Valid() && |tabs| < need
      modifies `tabs, `lays
      ensures Valid() && |tabs| == need
    {
      tabs := tabs + seq(need - |tabs|, i => None);
      lays := lays + seq(need - |lays|, i => OpenAddress.Layout([], [], []));
    }

    /** The probe: to the first empty slot, or the first entry with the hash and the text. */
    method Probe(slots: Slots, ghost lay: Lay, x: nat, key: Text) returns (r: Option<nat>)
      requires Valid() && x < |nodes| && TableOf(nodes, g.kids[x], hash, slots, lay)
      ensures r == Scan(nodes, g.kids[x], key, 0)
    {
      hide Forest, Tables, OpenAddress.Laid, Scan;
      var n, h := |slots|, hash(key);
      TableIsScan(nodes, g.kids[x], hash, slots, lay, key);
      ghost var hit := Hit(nodes, h, key);
      ghost var stop := OpenAddress.Probe(slots, h % n, hit, 0);
      ghost var d := 0;
      var s := h % n;
      while true
        invariant d <= stop < n && s == OpenAddress.Walk(h % n, d, n)
        invariant forall j :: 0 <= j < d ==> !OpenAddress.Stops(slots, h % n, hit, j)
        decreases stop - d
      {
        if slots[s].Empty? {
          assert OpenAddress.Stops(slots, h % n, hit, d);
          return None;
        }
        var e := slots[s].e;
        if e.hash == h && e.id < |nodes| && nodes[e.id].data.text == key {
          assert OpenAddress.Stops(slots, h % n, hit, d);
          return Some(e.id);
        }
        s := OpenAddress.Next(s, n);
        d := d + 1;
      }
    }

    // ---- making nodes ------------------------------------------------------------------------

    /** A new node, no root and nobody's child. */
    method NewNode(data: Label, kind: Kind) returns (id: nat)
      requires Valid() && |nodes| + 1 < NONE
      modifies this
      ensures Valid() && id == old(|nodes|) && nodes == old(nodes) + [Fresh(data, kind)] && !att[id]
      ensures g.kids == old(g.kids) + [[]] && att == old(att) + [false] && roots == old(roots) && tabs == old(tabs)
      ensures depth == old(depth) + [0] && lays == old(lays)
      ensures g == Sprout(old(g)) && (old(AllFlagged()) ==> AllFlagged()) && (old(Stepped(g, depth)) ==> Stepped(g, depth))
    {
      id := |nodes|;
      GraphOf(nodes, g, att, roots);
      if Stepped(g, depth) { SproutStepped(g, depth); }
      NewForest(nodes, g, att, roots, data, kind);
      SproutTables(nodes, data, kind, g, hash, tabs, lays);
      nodes, att, depth := nodes + [Fresh(data, kind)], att + [false], depth + [0];
      g := Sprout(g);
    }

    // ---- attaching -----------------------------------------------------------------------------

    /** mut_height: by a walk over the chains. */
    method Height(x: nat) returns (h: nat)
      requires Valid() && x < |nodes|
      ensures h == HeightOf(g, x)
      decreases g.rank[x]
    {
      hide Forest, Tables, ChainIs, Graph, Balanced;
      GraphOf(nodes, g, att, roots);
      At(x);
      ghost var ch := g.kids[x];
      ChainHead(nodes, x, ch);
      h := 0;
      var c := nodes[x].first;
      ghost var i := 0;
      while c != NONE
        invariant i <= |ch| && c == (if i < |ch| then ch[i] else NONE)
        invariant h == TallestOf(g, x, i)
        decreases |ch| - i
      {
        ChainStep(nodes, x, ch, i);
        GraphAt(g, x, i);
        var k := Height(c);
        if k + 1 > h {
          h := k + 1;
        }
        c := nodes[c].next;
        i := i + 1;
      }
      ChainStep(nodes, x, ch, i);
    }

    /** mut_attach_ok. */
    method AttachOk(p: nat, c: nat) returns (s: Status)
      requires Valid() && p < |nodes|
      ensures s == AttachStatus(p, c)
    {
      if c >= |nodes| || att[c] {
        return Attached;
      }
      var h := Height(c);
      if depth[p] + 1 + h > MAX_DEPTH {
        return TooDeep;
      }
      return Done;
    }

    ghost function AttachStatus(p: nat, c: nat): Status
      requires Valid() && p < |nodes|
      reads this
    {
      if c >= |nodes| || att[c] then Attached
      else
        GraphOf(nodes, g, att, roots);
        if depth[p] + 1 + HeightOf(g, c) > MAX_DEPTH then TooDeep else Done
    }

    /** On a parsed document nothing is refused for being attached, and depths count from the parent as if it were a root. */
    lemma ParsedAdmitsAll(p: nat, c: nat)
      requires Valid() && att == DomBuilt.Clear(|nodes|) && depth == seq(|nodes|, i => 0) && p < |nodes|
      ensures Graph(g) && |g.kids| == |nodes|
      ensures AttachStatus(p, c) == if c >= |nodes| then Attached else if 1 + HeightOf(g, c) > MAX_DEPTH then TooDeep else Done
    {
      GraphOf(nodes, g, att, roots);
      assert depth[p] == 0;
    }

    /**
     * Where every depth is one below the parent's, a child is refused for depth exactly when the nodes above the new
     * parent up to a top of depth 0, the parent and the longest way down from the child are more than the limit.
     */
    lemma TooDeepExactly(p: nat, c: nat, top: nat, k: nat)
      requires Valid() && p < |nodes| && c < |nodes| && !att[c] && top < |nodes| && Graph(g) && |g.kids| == |nodes|
      requires Stepped(g, depth) && depth[top] == 0 && Hangs(g, top, p, k)
      ensures AttachStatus(p, c) == TooDeep <==> exists n: nat :: n + k + 1 > 1000 && Reaches(g, c, n)
    {
      hide Forest, Graph, Tables, Balanced, HeightOf, Hangs, Reaches, Stepped;
      GraphOf(nodes, g, att, roots);
      SteppedLevels(g, depth, top, p, k);
      HeightExactly(g, c, HeightOf(g, c));
      forall n: nat | Reaches(g, c, n) ensures n <= HeightOf(g, c) { HeightExactly(g, c, n); }
    }

    ghost predicate Woods()
      reads this
    {
      Forest(nodes, g, att, roots) && |depth| == |nodes|
    }

    /** mut_link: dom_link, the bit and the depth. */
    method LinkChild(p: nat, c: nat)
      requires p < |nodes| && c < |nodes| && |att| == |depth| == |nodes| && (nodes[p].count > 0 ==> nodes[p].last < |nodes|)
      modifies `nodes, `att, `depth
      ensures old(nodes[p].count > 0 ==> nodes[p].last < |nodes|)
      ensures nodes == Link(old(nodes), p, c) && att == old(att)[c := true]
      ensures |old(depth)| == |nodes| && depth == old(depth)[c := old(depth)[p] + 1]
    {
      nodes := Link(nodes, p, c);
      att, depth := att[c := true], depth[c := depth[p] + 1];
    }

    /**
     * yep_mut_seq_add: the sequence gains c at its end, or nothing changes. The memory is a forest afterwards exactly
     * when c was loose, is not above the sequence and had nothing behind it.
     */
    method SeqAdd(p: nat, c: nat) returns (s: Status)
      requires Valid()
      modifies `nodes, `att, `depth, `g
      ensures s == if p >= old(|nodes|) || old(nodes)[p].kind != Seq then Error else old(AttachStatus(p, c))
      ensures s == Done ==> p < old(|nodes|) && c < old(|nodes|) && old(nodes[p].count > 0 ==> nodes[p].last < |nodes|)
      ensures s == Done ==> nodes == Link(old(nodes), p, c) && c < |old(att)| && att == old(att)[c := true]
      ensures |old(depth)| == |old(nodes)| && depth == if s == Done then old(depth)[c := old(depth)[p] + 1] else old(depth)
      ensures s == Done && old(Joins(p, c)) && old(Stepped(g, depth)) ==>
        |old(g.kids)| == |old(depth)| && (Stepped(g, depth) <==> old(g.kids)[c] == [] || old(depth)[c] == old(depth)[p] + 1)
      ensures s == Done ==>
        if old(Joins(p, c)) then Valid() && g.kids == old(g.kids)[p := old(g.kids)[p] + [c]] && (old(AllFlagged()) ==> AllFlagged())
        else !IsForest(nodes, att, roots)
      ensures s != Done ==> Valid() && nodes == old(nodes) && g == old(g) && att == old(att)
    {
      hide Forest, Graph, Tables, Balanced, Under, IsForest, Link, Joined, Labels, Flagged, JoinFits, Stepped;
      GraphOf(nodes, g, att, roots);
      if p >= |nodes| || nodes[p].kind != Seq {
        return Error;
      }
      s := AttachOk(p, c);
      if s == Done {
        GraphOf(nodes, g, att, roots);
        PairBounds(nodes, g, att, roots, p);
        ghost var fits := JoinFits(nodes, g, roots, p, c);
        LinkExactly(nodes, g, att, roots, p, c);
        if fits { JoinAll(nodes, g, att, roots, p, c, hash, tabs, lays); }
        if fits && Stepped(g, depth) {
          FitsLoose(nodes, g, roots, p, c);
          JoinStepped(g, depth, p, c);
        }
        LinkChild(p, c);
        if fits { g := Joined(g, p, c); }
      }
    }

    /** The node i places down p's chain. */
    method Nth(p: nat, index: nat) returns (c: nat)
      requires Valid() && p < |nodes| && index < |Kids(p)|
      ensures c == Kids(p)[index] && c < |nodes|
    {
      hide Forest, Tables, ChainIs, NextIn, Graph;
      GraphOf(nodes, g, att, roots);
      At(p);
      ghost var ch := g.kids[p];
      ChainHead(nodes, p, ch);
      c := nodes[p].first;
      var i := 0;
      while i < index && c != NONE
        invariant i <= index && c == ch[i] && c < |nodes|
      {
        ChainStep(nodes, p, ch, i);
        c := nodes[c].next;
        i := i + 1;
      }
    }

    /** The node before c = child i of p. */
    method PrevNode(p: nat, c: nat, ghost i: nat) returns (prev: Option<nat>)
      requires Forest(nodes, g, att, roots) && p < |nodes| && i < |g.kids[p]| && c == g.kids[p][i]
      ensures prev == PrevOf(g.kids[p], i)
    {
      hide Forest, ChainIs, NextIn, Graph;
      GraphOf(nodes, g, att, roots);
      ForestAt(nodes, g, att, roots, p);
      ghost var ch := g.kids[p];
      ChainHead(nodes, p, ch);
      ParentDistinct(g, p);
      if nodes[p].first == c {
        return None;
      }
      var b := nodes[p].first;
      ghost var j := 0;
      ChainStep(nodes, p, ch, 0);
      while nodes[b].next != c
        invariant j < i && b == ch[j] && b < |nodes|
        decreases i - j
      {
        ChainStep(nodes, p, ch, j);
        ChainStep(nodes, p, ch, j + 1);
        b := nodes[b].next;
        j := j + 1;
      }
      ChainStep(nodes, p, ch, j);
      return Some(b);
    }

    /** unlink_child. */
    method UnlinkChild(p: nat, c: nat, ghost i: nat)
      requires Woods() && p < |nodes| && i < |g.kids[p]| && c == g.kids[p][i]
      modifies `nodes, `att, `g
      ensures c < old(|nodes|) && Woods() && att == old(att)[c := false] && Labels(old(nodes), nodes) && |nodes| == old(|nodes|)
      ensures g == Detach(old(g), p, i) && nodes[c].next == NONE
      ensures |old(g.owner)| == |nodes| && forall n :: 0 <= n < |nodes| && old(g.owner)[n] != Some(p) ==> nodes[n].next == old(nodes)[n].next
      ensures old(AllFlagged()) ==> AllFlagged()
      ensures old(Stepped(g, depth)) ==> Stepped(g, depth)
    {
      hide Forest, Graph, Detach, Stepped;
      GraphOf(nodes, g, att, roots);
      if Stepped(g, depth) { DetachStepped(g, depth, p, i); }
      var prev := PrevNode(p, c, i);
      UnlinkForest(nodes, g, att, roots, p, i);
      UnlinkLabels(nodes, p, c, prev);
      UnlinkKeepsNext(nodes, g, att, roots, p, i, prev);
      DetachFlags(nodes, g, att, roots, p, i);
      nodes := Unlink(nodes, p, c, prev);
      att := att[c := false];
      g := Detach(g, p, i);
    }

    /** yep_mut_seq_del: element index leaves the sequence and stands alone. */
    method SeqDel(p: nat, index: nat) returns (s: Status)
      requires Valid()
      modifies `nodes, `att, `g
      ensures Valid()
      ensures s == if p < old(|nodes|) && old(nodes)[p].kind == Seq && index < |old(g.kids)[p]| then Done else Error
      ensures s == Done ==> g.kids == old(g.kids)[p := old(g.kids)[p][..index] + old(g.kids)[p][index + 1..]] && Labels(old(nodes), nodes)
      ensures s == Done ==> var c := old(g.kids)[p][index]; c < |nodes| && att == old(att)[c := false] && nodes[c].next == NONE
      ensures old(AllFlagged()) ==> AllFlagged()
      ensures old(Stepped(g, depth)) ==> Stepped(g, depth)
      ensures s != Done ==> nodes == old(nodes) && g == old(g) && att == old(att)
    {
      hide Forest, Graph, Tables, Balanced, Stepped;
      if p >= |nodes| || nodes[p].kind != Seq {
        return Error;
      }
      At(p);
      GraphOf(nodes, g, att, roots);
      ChainHead(nodes, p, g.kids[p]);
      if index >= nodes[p].count {
        return Error;
      }
      var c := Nth(p, index);
      GraphOf(nodes, g, att, roots);
      UnlinkChild(p, c, index);
      GraphOf(nodes, g, att, roots);
      KeepTables(old(nodes), nodes, old(g.kids), g.kids, p, hash, tabs, lays);
      return Done;
    }

    /**
     * yep_mut_set_depths: whether it comes back within fuel calls inside each other; and where the chains below x are
     * those of a shape, every node k links below x has depth d + k when it does, and no other depth has changed.
     */
    method SetDepths(x: nat, d: nat, fuel: nat, ghost h: Shape) returns (ok: bool)
      requires |depth| == |nodes| && x < |nodes|
      modifies `depth
      ensures |depth| == old(|depth|) && ok == Returns(nodes, x, fuel)
      ensures ok && Charted(nodes, h, x) ==> Renewed(h, x, d, old(depth), depth)
      decreases fuel
    {
      hide Along, Renewed, RenewedTo, Charted, Graph, Under;
      if fuel == 0 {
        return false;
      }
      depth := depth[x := d];
      ghost var charted, i := Charted(nodes, h, x), 0;
      if charted { ChartStart(nodes, h, x, d, old(depth)); }
      var c: nat, steps: nat := nodes[x].first, |nodes|;
      while c != NONE
        invariant |depth| == old(|depth|) && Returns(nodes, x, fuel) == Along(nodes, c, fuel - 1, steps)
        invariant charted ==> x < |h.kids| && i <= |h.kids[x]| && c == (if i < |h.kids[x]| then h.kids[x][i] else NONE)
        invariant charted ==> RenewedTo(h, x, i, d, old(depth), depth)
        decreases steps
      {
        AlongStep(nodes, c, fuel - 1, steps);
        if c >= |nodes| || steps == 0 {
          return false;
        }
        if charted { ChartKid(nodes, h, x, i); }
        ghost var mid := depth;
        ok := SetDepths(c, d + 1, fuel - 1, h);
        if !ok {
          return;
        }
        if charted { RenewedStep(h, x, i, d, old(depth), mid, depth); }
        c, steps, i := nodes[c].next, steps - 1, i + 1;
      }
      AlongStep(nodes, c, fuel - 1, steps);
      if charted {
        ChartEnd(nodes, h, x, i);
        RenewedEnd(h, x, d, old(depth), depth);
      }
      ok := true;
    }

    /** What a splice needs of the new child. */
    ghost predicate Splices(p: nat, i: nat, v: nat, clear: bool)
      requires Valid() && p < |nodes| && i < |Kids(p)| && v < |nodes|
      reads this
    {
      GraphOf(nodes, g, att, roots);
      SpliceFits(g, roots, p, i, v, clear)
    }

    /**
     * The splice both setters share, and the walk that renews the depths below v: v takes the place of c = child i of
     * p. The walk comes back exactly when v is not above p.
     */
    method Splice(p: nat, c: nat, v: nat, ghost i: nat, clear: bool, d: nat) returns (ok: bool)
      requires Valid() && p < |nodes| && i < |Kids(p)| && c == Kids(p)[i] && v < |nodes|
      requires AttachStatus(p, v) == Done
      modifies `nodes, `att, `depth, `g
      ensures c < old(|nodes|) && (i > 0 ==> old(g.kids)[p][i - 1] < old(|nodes|)) && c < |old(att)| && v < |old(att)|
      ensures nodes == Replace(old(nodes), p, c, v, PrevOf(old(g.kids)[p], i), clear) && att == old(att)[c := false][v := true] && |depth| == |nodes|
      ensures ok <==> !old(Below(v, p))
      ensures ok && old(Splices(p, i, v, clear)) ==> Respliced(old(g), g, p, v, d, old(depth), depth)
      ensures if old(Splices(p, i, v, clear)) then Forest(nodes, g, att, roots) && g.kids == old(g.kids)[p := Put(old(g.kids)[p], i, v)]
                && (old(AllFlagged()) ==> AllFlagged())
              else !IsForest(nodes, att, roots)
    {
      hide Forest, Graph, Under, Swap, Detach, Tables, Balanced, IsForest, Replace, Returns, SpliceFits, Flagged, Put, Renewed, Charted, SplicedShape;
      GraphOf(nodes, g, att, roots);
      ghost var g0 := g;
      var prev := PrevNode(p, c, i);
      ghost var fits := SpliceFits(g, roots, p, i, v, clear);
      SpliceAll(nodes, g, att, roots, p, i, v, clear);
      nodes := Replace(nodes, p, c, v, prev, clear);
      att := att[c := false][v := true];
      if fits { g := SplicedShape(g, p, i, v); }
      if fits {
        GraphOf(nodes, g, att, roots);
        ForestCharted(nodes, g, att, roots, v);
        SplicedOwners(g0, p, i, v);
      }
      ok := SetDepths(v, d, MAX_DEPTH, g);
    }

    /**
     * yep_mut_seq_set: element index becomes v, and what was there stands alone. Where v is above the sequence the call
     * does not come back; the memory is a forest afterwards exactly when v was loose and not above it, or is the last
     * element again.
     */
    method SeqSet(p: nat, index: nat, v: nat) returns (s: Status)
      requires Valid()
      modifies `nodes, `att, `depth, `g
      ensures s == if p >= old(|nodes|) || old(nodes)[p].kind != Seq || index >= |old(g.kids)[p]| then Error
                   else if old(AttachStatus(p, v)) != Done then old(AttachStatus(p, v))
                   else if old(Below(v, p)) then Endless else Done
      ensures s in {Done, Endless} ==>
        var ch := old(g.kids)[p];
        && ch[index] < old(|nodes|) && (index > 0 ==> ch[index - 1] < old(|nodes|)) && ch[index] < |old(att)| && v < |old(att)|
        && nodes == Replace(old(nodes), p, ch[index], v, PrevOf(ch, index), true) && att == old(att)[ch[index] := false][v := true]
        && if old(Splices(p, index, v, true)) then Valid() && g.kids == old(g.kids)[p := Put(ch, index, v)] && (old(AllFlagged()) ==> AllFlagged())
           else !IsForest(nodes, att, roots)
      ensures s == Done && old(Splices(p, index, v, true)) ==>
        && p < |old(depth)| && Renewed(g, v, old(depth)[p] + 1, old(depth), depth) && (old(Stepped(g, depth)) ==> Stepped(g, depth))
      ensures s !in {Done, Endless} ==> Valid() && nodes == old(nodes) && g == old(g) && att == old(att) && depth == old(depth)
    {
      hide Forest, Graph, Tables, Balanced, Replace, IsForest, SpliceFits, Under, Flagged, Labels, Renewed, Stepped;
      if p >= |nodes| || nodes[p].kind != Seq {
        return Error;
      }
      At(p);
      GraphOf(nodes, g, att, roots);
      ChainHead(nodes, p, g.kids[p]);
      if index >= nodes[p].count {
        return Error;
      }
      var c := Nth(p, index);
      s := AttachOk(p, v);
      if s == Done {
        GraphOf(nodes, g, att, roots);
        var ok := Splice(p, c, v, index, true, depth[p] + 1);
        ReplaceLabels(old(nodes), p, c, v, PrevOf(old(g.kids)[p], index), true);
        if old(Splices(p, index, v, true)) {
          GraphOf(nodes, g, att, roots);
          KeepTables(old(nodes), nodes, old(g.kids), g.kids, p, hash, tabs, lays);
          if ok && old(Stepped(g, depth)) { ResplicedStepped(old(g), g, p, v, old(depth)[p] + 1, old(depth), depth); }
        }
        s := if ok then Done else Endless;
      }
    }

    // ---- mappings --------------------------------------------------------------------------------

    /** map_find: the key in place i, and the node there. */
    method FindPair(p: nat, key: Text) returns (c: nat, ghost i: Option<nat>)
      requires Valid() && p < |nodes| && nodes[p].kind == Map
      ensures i == FindKey(nodes, Kids(p), key, 0)
      ensures c == if i.Some? then Kids(p)[i.value] else NONE
    {
      hide Forest, Tables, ChainIs, NextIn, Graph, Balanced;
      GraphOf(nodes, g, att, roots);
      At(p);
      ghost var ch := g.kids[p];
      ChainHead(nodes, p, ch);
      c := nodes[p].first;
      ghost var j := 0;
      while c != NONE
        invariant j <= |ch| && j % 2 == 0 && c == (if j < |ch| then ch[j] else NONE)
        invariant FindKey(nodes, ch, key, 0) == FindKey(nodes, ch, key, j)
        decreases |ch| - j
      {
        ChainStep(nodes, p, ch, j);
        ChainStep(nodes, p, ch, j + 1);
        if nodes[c].data.text == key {
          return c, Some(j);
        }
        c := nodes[nodes[c].next].next;
        j := j + 2;
      }
      ChainStep(nodes, p, ch, j);
      return NONE, None;
    }

    /** yep_midx_invalidate. */
    method Invalidate(p: nat)
      modifies `tabs
      ensures tabs == if p < |old(tabs)| then old(tabs)[p := None] else old(tabs)
    {
      if p < |tabs| {
        tabs := tabs[p := None];
      }
    }

    /** What a mapping needs of a pair. */
    ghost predicate Fits(p: nat, k: nat, v: nat)
      requires Valid() && k < |nodes| && v < |nodes|
      reads this
    {
      GraphOf(nodes, g, att, roots);
      PairFits(nodes, g, roots, p, k, v)
    }

    /** Key and value linked to the end of the mapping, and its table dropped: a forest exactly when the pair fits. */
    method AppendPair(p: nat, k: nat, v: nat)
      requires Valid() && p < |nodes| && nodes[p].kind == Map && k < |nodes| && v < |nodes|
      modifies `nodes, `att, `depth, `g, `tabs
      ensures p < old(|nodes|) && (old(nodes)[p].count > 0 ==> old(nodes)[p].last < old(|nodes|))
      ensures nodes == LinkPair(old(nodes), p, k, v) && |old(att)| == |nodes| && att == old(att)[k := true][v := true]
      ensures if old(Fits(p, k, v)) then Valid() && g.kids == old(g.kids)[p := old(g.kids)[p] + [k, v]] && (old(AllFlagged()) ==> AllFlagged())
              else !IsForest(nodes, att, roots)
      ensures |old(depth)| == |nodes| && depth == PairDepth(old(depth), p, k, v)
      ensures old(Fits(p, k, v)) && old(Stepped(g, depth)) ==>
        |old(g.kids)| == |old(depth)| && (Stepped(g, depth) <==> PairLevel(old(g), old(depth), p, k) && PairLevel(old(g), old(depth), p, v))
    {
      hide Forest, Graph, Tables, Balanced, Under, Attach, LinkPair, PairFits, IsForest, Paired, Link, Labels, Flagged, Stepped, PairLevel;
      GraphOf(nodes, g, att, roots);
      if PairFits(nodes, g, roots, p, k, v) && Stepped(g, depth) { PairStepped(nodes, g, roots, depth, p, k, v); }
      ghost var fits := PairFits(nodes, g, roots, p, k, v);
      PairExactly(nodes, g, att, roots, p, k, v);
      PairBounds(nodes, g, att, roots, p);
      if fits { PairAll(nodes, g, att, roots, p, k, v, hash, tabs, if p < |tabs| then tabs[p := None] else tabs, lays); }
      PairIs(nodes, p, k, v);
      LinkChild(p, k);
      LinkChild(p, v);
      Invalidate(p);
      if fits { g := Paired(g, p, k, v); }
    }

    /** yep_mut_map_append: without the search for duplicates, and without a look at the key. */
    method MapAppend(p: nat, k: nat, v: nat) returns (s: Status)
      requires Valid() && k < |nodes|
      modifies `nodes, `att, `depth, `g, `tabs
      ensures s == if p >= old(|nodes|) || old(nodes)[p].kind != Map then Error else old(AttachStatus(p, v))
      ensures s == Done ==>
        v < old(|nodes|) &&
        if old(Fits(p, k, v)) then Valid() && g.kids == old(g.kids)[p := old(g.kids)[p] + [k, v]] && (old(AllFlagged()) ==> AllFlagged())
        else !IsForest(nodes, att, roots)
      ensures s == Done ==> v < |old(att)| == |old(nodes)| && att == old(att)[k := true][v := true] && Labels(old(nodes), nodes)
      ensures |old(depth)| == |old(nodes)| && (s == Done ==> depth == PairDepth(old(depth), p, k, v))
      ensures s == Done && old(Fits(p, k, v)) && old(Stepped(g, depth)) ==>
        |old(g.kids)| == |old(depth)| && (Stepped(g, depth) <==> PairLevel(old(g), old(depth), p, k) && PairLevel(old(g), old(depth), p, v))
      ensures s != Done ==> Valid() && nodes == old(nodes) && g == old(g) && att == old(att) && depth == old(depth)
    {
      hide LinkPair, IsForest, PairFits, Flagged, Stepped, PairLevel;
      GraphOf(nodes, g, att, roots);
      if p >= |nodes| || nodes[p].kind != Map {
        return Error;
      }
      s := AttachOk(p, v);
      if s == Done {
        PairBounds(nodes, g, att, roots, p);
        PairLabels(nodes, p, k, v);
        AppendPair(p, k, v);
      }
    }

    /** yep_mut_map_add_node: as append, unless the mapping has the key. */
    method MapAddNode(p: nat, k: nat, v: nat) returns (s: Status)
      requires Valid() && k < |nodes|
      modifies `nodes, `att, `depth, `g, `tabs
      ensures s == if p >= old(|nodes|) || old(nodes)[p].kind != Map then Error
                   else if old(FindKey(nodes, Kids(p), nodes[k].data.text, 0)).Some? then Duplicate else old(AttachStatus(p, v))
      ensures s == Done ==>
        v < old(|nodes|) &&
        if old(Fits(p, k, v)) then Valid() && g.kids == old(g.kids)[p := old(g.kids)[p] + [k, v]] && (old(AllFlagged()) ==> AllFlagged())
        else !IsForest(nodes, att, roots)
      ensures s == Done ==> v < |old(att)| == |old(nodes)| && att == old(att)[k := true][v := true] && Labels(old(nodes), nodes)
      ensures |old(depth)| == |old(nodes)| && (s == Done ==> depth == PairDepth(old(depth), p, k, v))
      ensures s == Done && old(Fits(p, k, v)) && old(Stepped(g, depth)) ==>
        |old(g.kids)| == |old(depth)| && (Stepped(g, depth) <==> PairLevel(old(g), old(depth), p, k) && PairLevel(old(g), old(depth), p, v))
      ensures s != Done ==> Valid() && nodes == old(nodes) && g == old(g) && att == old(att) && depth == old(depth)
    {
      hide LinkPair, IsForest, PairFits, Flagged, Stepped, PairLevel;
      GraphOf(nodes, g, att, roots);
      if p >= |nodes| || nodes[p].kind != Map {
        return Error;
      }
      ghost var i;
      var c;
      c, i := FindPair(p, nodes[k].data.text);
      NotNone(p);
      if c != NONE {
        return Duplicate;
      }
      s := MapAppend(p, k, v);
    }

    /** The verdict on a value that is to follow a key made just before: the key's own id passes as a fresh node. */
    ghost function PairStatus(p: nat, v: nat): Status
      requires Valid() && p < |nodes|
      reads this
    {
      if v == |nodes| then if depth[p] + 1 > MAX_DEPTH then TooDeep else Done else AttachStatus(p, v)
    }

    /** The memory with a new key and the value at the mapping's end. */
    ghost predicate Placed(before: seq<Node>, p: nat, key: Text, v: nat)
      reads this
    {
      var k := |before|;
      var made := before + [Fresh(Label(key, true), Leaf)];
      p < k && v <= k && (made[p].count > 0 ==> made[p].last < k) && nodes == LinkPair(made, p, k, v)
    }

    /**
     * yep_mut_map_add: a new key node and the value go in, unless the mapping has the key or the value cannot move. The
     * memory is a forest afterwards exactly when the value was another node, loose, not above the mapping and had
     * nothing behind it.
     */
    method MapAdd(p: nat, key: Text, v: nat) returns (s: Status)
      requires Valid() && |nodes| + 1 < NONE
      modifies this
      ensures s == if p >= old(|nodes|) || old(nodes)[p].kind != Map then Error
                   else if old(FindKey(nodes, Kids(p), key, 0)).Some? then Duplicate else old(PairStatus(p, v))
      ensures s == Done ==> Placed(old(nodes), p, key, v)
      ensures s == Done ==>
        if v < old(|nodes|) && old(Joins(p, v)) then
          Valid() && g.kids == (old(g.kids) + [[]])[p := old(g.kids)[p] + [old(|nodes|), v]] && (old(AllFlagged()) ==> AllFlagged())
        else !IsForest(nodes, att, roots)
      ensures s == Done && v < old(|nodes|) ==>
        |old(depth)| == |old(nodes)| && depth == PairDepth(old(depth) + [0], p, |old(nodes)|, v)
      ensures s == Done && v < old(|nodes|) && old(Joins(p, v)) && old(Stepped(g, depth)) ==>
        |old(g.kids)| == |old(depth)| && (Stepped(g, depth) <==> PairLevel(old(g), old(depth), p, v))
      ensures s != Done ==> Valid() && nodes == old(nodes) && g == old(g) && att == old(att) && depth == old(depth)
    {
      hide LinkPair, IsForest, PairFits, Placed, Flagged, JoinFits, Stepped, PairLevel;
      if p >= |nodes| || nodes[p].kind != Map {
        return Error;
      }
      var c; ghost var i;
      c, i := FindPair(p, key);
      NotNone(p);
      if c != NONE {
        return Duplicate;
      }
      s := PlacePair(p, key, v);
    }

    /**
     * map_place_pair: the key node is retracted when the value cannot be attached. A value id equal to the new key's
     * passes as a fresh node, and the key is linked twice.
     */
    method PlacePair(p: nat, key: Text, v: nat) returns (s: Status)
      requires Valid() && |nodes| + 1 < NONE && p < |nodes| && nodes[p].kind == Map
      modifies this
      ensures s == old(PairStatus(p, v))
      ensures s == Done ==> Placed(old(nodes), p, key, v)
      ensures s == Done ==>
        if v < old(|nodes|) && old(Joins(p, v)) then
          Valid() && g.kids == (old(g.kids) + [[]])[p := old(g.kids)[p] + [old(|nodes|), v]] && (old(AllFlagged()) ==> AllFlagged())
        else !IsForest(nodes, att, roots)
      ensures s == Done && v < old(|nodes|) ==>
        |old(depth)| == |old(nodes)| && depth == PairDepth(old(depth) + [0], p, |old(nodes)|, v)
      ensures s == Done && v < old(|nodes|) && old(Joins(p, v)) && old(Stepped(g, depth)) ==>
        |old(g.kids)| == |old(depth)| && (Stepped(g, depth) <==> PairLevel(old(g), old(depth), p, v))
      ensures s != Done ==> Valid() && nodes == old(nodes) && g == old(g) && att == old(att) && depth == old(depth)
    {
      hide Forest, Graph, Tables, Balanced, Under, HeightOf, LinkPair, IsForest, Flagged, Stepped, PairLevel;
      GraphOf(nodes, g, att, roots);
      PairBounds(nodes, g, att, roots, p);
      ghost var g0, nodes0, att0, depth0 := g, nodes, att, depth;
      var k := NewNode(Label(key, true), Leaf);
      GraphOf(nodes, g, att, roots);
      if v <= |nodes0| { NewFits(nodes0, g0, att0, roots, p, v, Label(key, true)); }
      NewIsLoose(g0, p, v);
      NewIsFlat(g0);
      s := AttachOk(p, v);
      if s != Done {
        nodes, att, depth := nodes[..k], att[..k], depth[..k];
        g := g0;
        assert nodes == nodes0 && att == att0 && depth == depth0;
        return;
      }
      if v < k { NewLevel(g0, depth0, p, v); }
      AppendPair(p, k, v);
    }

    /**
     * yep_mut_map_set: the value of a present key is replaced in its place, where a value above the mapping makes the
     * call endless; a new pair otherwise.
     */
    method MapSet(p: nat, key: Text, v: nat) returns (s: Status)
      requires Valid() && |nodes| + 1 < NONE
      modifies this
      ensures p >= old(|nodes|) || old(nodes)[p].kind != Map ==> s == Error
      ensures p < old(|nodes|) && old(nodes)[p].kind == Map ==>
        var at := old(FindKey(nodes, Kids(p), key, 0));
        if at.Some? then
          && s == (if old(AttachStatus(p, v)) != Done then old(AttachStatus(p, v)) else if old(Below(v, p)) then Endless else Replaced)
          && (s in {Replaced, Endless} ==>
                var ch, i := old(g.kids)[p], at.value + 1;
                && ch[i] < old(|nodes|) && ch[i - 1] < old(|nodes|) && ch[i] < |old(att)| && v < |old(att)|
                && nodes == Replace(old(nodes), p, ch[i], v, PrevOf(ch, i), false) && att == old(att)[ch[i] := false][v := true]
                && if old(Splices(p, i, v, false)) then Valid() && g.kids == old(g.kids)[p := Put(ch, i, v)] && (old(AllFlagged()) ==> AllFlagged())
                   else !IsForest(nodes, att, roots))
        else
          && s == old(PairStatus(p, v))
          && (s == Done ==>
                && Placed(old(nodes), p, key, v)
                && if v < old(|nodes|) && old(Joins(p, v)) then
                     Valid() && g.kids == (old(g.kids) + [[]])[p := old(g.kids)[p] + [old(|nodes|), v]] && (old(AllFlagged()) ==> AllFlagged())
                   else !IsForest(nodes, att, roots))
      ensures s == Replaced ==>
        var at := old(FindKey(nodes, Kids(p), key, 0)).value;
        old(Splices(p, at + 1, v, false)) ==> SetBelowKey(old(g), g, p, at, v, old(depth), depth)
      ensures s == Done && v < old(|nodes|) ==>
        |old(depth)| == |old(nodes)| && depth == PairDepth(old(depth) + [0], p, |old(nodes)|, v)
      ensures s !in {Done, Replaced, Endless} ==> Valid() && nodes == old(nodes) && g == old(g) && att == old(att) && depth == old(depth)
    {
      hide Forest, Graph, Tables, Balanced, Under, HeightOf, IsForest, Placed, SpliceFits, Replace, JoinFits, Flagged, Stepped, PairLevel, SetBelowKey;
      GraphOf(nodes, g, att, roots);
      if p >= |nodes| || nodes[p].kind != Map {
        return Error;
      }
      var k; ghost var i;
      k, i := FindPair(p, key);
      NotNone(p);
      if k == NONE {
        s := PlacePair(p, key, v);
        return;
      }
      s := AttachOk(p, v);
      if s == Done {
        var ok := ReplaceValue(p, k, v, i.value);
        s := if ok then Replaced else Endless;
      }
    }

    method ReplaceValue(p: nat, k: nat, v: nat, ghost i: nat) returns (ok: bool)
      requires Valid() && p < |nodes| && nodes[p].kind == Map && i + 1 < |Kids(p)| && k == Kids(p)[i] && v < |nodes| && AttachStatus(p, v) == Done
      modifies `nodes, `att, `depth, `g, `tabs
      ensures ok <==> !old(Below(v, p))
      ensures var ch := old(g.kids)[p];
        && ch[i + 1] < old(|nodes|) && ch[i] < old(|nodes|) && ch[i + 1] < |old(att)| && v < |old(att)|
        && nodes == Replace(old(nodes), p, ch[i + 1], v, PrevOf(ch, i + 1), false) && att == old(att)[ch[i + 1] := false][v := true]
        && if old(Splices(p, i + 1, v, false)) then Valid() && g.kids == old(g.kids)[p := Put(ch, i + 1, v)] && (old(AllFlagged()) ==> AllFlagged())
           else !IsForest(nodes, att, roots)
      ensures ok && old(Splices(p, i + 1, v, false)) ==> SetBelowKey(old(g), g, p, i, v, old(depth), depth)
    {
      hide Forest, Graph, Tables, Balanced, Under, ChainIs, NextIn, IsForest, SpliceFits, Replace, Flagged, Labels, Renewed, Stepped;
      GraphOf(nodes, g, att, roots);
      MapEven(nodes, g.kids, p);
      At(p);
      ChainStep(nodes, p, g.kids[p], i);
      ChainStep(nodes, p, g.kids[p], i + 1);
      var was := nodes[k].next;
      ok := Splice(p, was, v, i + 1, false, depth[k] + 1);
      ReplaceLabels(old(nodes), p, was, v, PrevOf(old(g.kids)[p], i + 1), false);
      Invalidate(p);
      if old(Splices(p, i + 1, v, false)) {
        GraphOf(nodes, g, att, roots);
        FewerTables(old(nodes), old(g.kids), hash, old(tabs), lays, p);
        KeepTables(old(nodes), nodes, old(g.kids), g.kids, p, hash, tabs, lays);
        if ok { KeyDeepens(old(g), g, p, i, v, old(depth), depth); }
      }
    }

    /** yep_mut_map_del: the pair leaves the mapping. */
    method MapDel(p: nat, key: Text) returns (s: Status)
      requires Valid()
      modifies `nodes, `att, `g, `tabs
      ensures Valid()
      ensures s == if p < old(|nodes|) && old(nodes)[p].kind == Map && old(FindKey(nodes, Kids(p), key, 0)).Some? then Done else Error
      ensures s == Done ==>
        var i, ch := old(FindKey(nodes, Kids(p), key, 0)).value, old(g.kids)[p];
        && g.kids == old(g.kids)[p := ch[..i] + ch[i + 2..]] && Labels(old(nodes), nodes)
        && ch[i] < |nodes| && ch[i + 1] < |nodes| && att == old(att)[ch[i] := false][ch[i + 1] := false]
        && nodes[ch[i]].next == NONE && nodes[ch[i + 1]].next == NONE
      ensures old(AllFlagged()) ==> AllFlagged()
      ensures old(Stepped(g, depth)) ==> Stepped(g, depth)
      ensures s != Done ==> nodes == old(nodes) && g == old(g) && att == old(att)
    {
      hide Forest, Graph, Tables, Balanced, ChainIs, NextIn, Detach, Stepped;
      if p >= |nodes| || nodes[p].kind != Map {
        return Error;
      }
      var k; ghost var at;
      k, at := FindPair(p, key);
      NotNone(p);
      if k == NONE {
        return Error;
      }
      GraphOf(nodes, g, att, roots);
      MapEven(nodes, g.kids, p);
      DropPair(p, k, at.value);
      return Done;
    }

    method DropPair(p: nat, k: nat, ghost i: nat)
      requires Valid() && p < |nodes| && nodes[p].kind == Map && i + 1 < |Kids(p)| && k == Kids(p)[i] && k < |nodes| && i % 2 == 0
      modifies `nodes, `att, `g, `tabs
      ensures Valid() && Labels(old(nodes), nodes)
      ensures var ch := old(g.kids)[p];
        && g.kids == old(g.kids)[p := ch[..i] + ch[i + 2..]]
        && ch[i] < |nodes| && ch[i + 1] < |nodes| && att == old(att)[ch[i] := false][ch[i + 1] := false]
        && nodes[ch[i]].next == NONE && nodes[ch[i + 1]].next == NONE
      ensures old(AllFlagged()) ==> AllFlagged()
      ensures old(Stepped(g, depth)) ==> Stepped(g, depth)
    {
      hide Forest, Graph, Tables, Balanced, ChainIs, NextIn, Detach, Stepped;
      GraphOf(nodes, g, att, roots);
      ghost var ch := g.kids[p];
      MapEven(nodes, g.kids, p);
      At(p);
      ChainStep(nodes, p, ch, i);
      ChainStep(nodes, p, ch, i + 1);
      var v := nodes[k].next;
      ParentDistinct(g, p);
      DetachTwice(g, p, i);
      DetachOwner(g, p, i);
      UnlinkChild(p, k, i);
      GraphOf(nodes, g, att, roots);
      UnlinkChild(p, v, i);
      GraphOf(nodes, g, att, roots);
      Invalidate(p);
      FewerTables(old(nodes), old(g.kids), hash, old(tabs), lays, p);
      KeepTables(old(nodes), nodes, old(g.kids), g.kids, p, hash, tabs, lays);
    }

    /**
     * yep_mut_add_root: a node without its bit becomes a document. Roots and children stay apart exactly when it was no
     * root and nobody's child.
     */
    method AddRoot(x: nat) returns (s: Status)
      requires Valid()
      modifies `roots, `att, `depth
      ensures s == if x >= old(|nodes|) || old(att)[x] then Attached else if old(TallOf(x)) + 1 > MAX_DEPTH then TooDeep else Done
      ensures s == Done ==> roots == old(roots) + [x] && att == old(att)[x := true]
      ensures s == Done ==> if Loose(g, old(roots), x) then Valid() && (old(AllFlagged()) ==> AllFlagged()) else !IsForest(nodes, att, roots)
      ensures s == Done ==> Renewed(g, x, 0, old(depth), depth)
      ensures s == Done && Loose(g, old(roots), x) && old(Stepped(g, depth)) ==> Stepped(g, depth)
      ensures s != Done ==> Valid() && roots == old(roots) && att == old(att) && depth == old(depth)
    {
      hide Forest, Graph, Tables, Balanced, HeightOf, IsForest, Renewed, Charted, Stepped;
      GraphOf(nodes, g, att, roots);
      if x >= |nodes| || att[x] {
        return Attached;
      }
      var h := Height(x);
      if h + 1 > MAX_DEPTH {
        return TooDeep;
      }
      RootExactly(nodes, g, att, roots, x);
      TreeReturns(nodes, g, att, roots, x, MAX_DEPTH);
      ForestCharted(nodes, g, att, roots, x);
      var ok := SetDepths(x, 0, MAX_DEPTH, g);
      if Loose(g, roots, x) && old(Stepped(g, depth)) { TopStepped(g, x, old(depth), depth); }
      att := att[x := true];
      roots := roots + [x];
      return Done;
    }

    ghost function TallOf(x: nat): nat
      requires Valid()
      reads this
    {
      GraphOf(nodes, g, att, roots);
      if x < |nodes| then HeightOf(g, x) else 0
    }

    /** The nodes of a chain are no NONE. */
    lemma NotNone(p: nat)
      requires Valid() && p < |nodes|
      ensures forall i :: 0 <= i < |Kids(p)| ==> Kids(p)[i] != NONE
    {
      At(p);
      GraphOf(nodes, g, att, roots);
    }
  }

  // ---- depths ---------------------------------------------------------------------------------

  /** The chains from x down are those of the shape. */
  ghost predicate Charted(nodes: seq<Node>, h: Shape, x: nat) {
    Graph(h) && |h.kids| == |nodes| < NONE && x < |nodes| && ChainsBelow(nodes, h, x)
  }

  lemma ForestCharted(nodes: seq<Node>, g: Shape, att: seq<bool>, roots: seq<nat>, x: nat)
    requires Forest(nodes, g, att, roots) && x < |nodes|
    ensures Charted(nodes, g, x)
  {
    hide Under;
  }

  lemma ChartStart(nodes: seq<Node>, h: Shape, x: nat, d: nat, depth: seq<nat>)
    requires Charted(nodes, h, x) && |depth| == |nodes|
    ensures x < |h.kids| && nodes[x].first == (if |h.kids[x]| > 0 then h.kids[x][0] else NONE)
    ensures RenewedTo(h, x, 0, d, depth, depth[x := d])
  {
    assert Under(h, x, x);
    ChainHead(nodes, x, h.kids[x]);
    RenewedStart(h, x, d, depth);
  }

  lemma ChartKid(nodes: seq<Node>, h: Shape, x: nat, i: nat)
    requires Charted(nodes, h, x) && x < |h.kids| && i < |h.kids[x]|
    ensures h.kids[x][i] < |nodes| && Charted(nodes, h, h.kids[x][i])
    ensures nodes[h.kids[x][i]].next == if i + 1 < |h.kids[x]| then h.kids[x][i + 1] else NONE
  {
    GraphAt(h, x, i);
    assert Under(h, x, x);
    ChainStep(nodes, x, h.kids[x], i);
    KidChains(nodes, h, x, i);
  }

  /** The chain ends behind its last node only. */
  lemma ChartEnd(nodes: seq<Node>, h: Shape, x: nat, i: nat)
    requires Charted(nodes, h, x) && x < |h.kids| && i <= |h.kids[x]| && (if i < |h.kids[x]| then h.kids[x][i] else NONE) == NONE
    ensures i == |h.kids[x]|
  {
    if i < |h.kids[x]| { GraphAt(h, x, i); }
  }

  lemma SproutStepped(g: Shape, depth: seq<nat>)
    requires Graph(g) && Stepped(g, depth)
    ensures Stepped(Sprout(g), depth + [0])
  {
    var h := Sprout(g);
    forall n | 0 <= n < |h.owner| && h.owner[n].Some? ensures OneBelow(h, depth + [0], n) { assert OneBelow(g, depth, n); }
  }

  lemma DetachStepped(g: Shape, depth: seq<nat>, p: nat, i: nat)
    requires Graph(g) && Stepped(g, depth) && p < |g.kids| && i < |g.kids[p]|
    ensures g.kids[p][i] < |g.kids| && Stepped(Detach(g, p, i), depth)
  {
    GraphAt(g, p, i);
    var h := Detach(g, p, i);
    forall n | 0 <= n < |h.owner| && h.owner[n].Some? ensures OneBelow(h, depth, n) { assert OneBelow(g, depth, n); }
  }

  lemma FitsLoose(nodes: seq<Node>, g: Shape, roots: seq<nat>, p: nat, c: nat)
    requires Graph(g) && p < |g.kids| && c < |g.kids| == |nodes| && JoinFits(nodes, g, roots, p, c)
    ensures g.owner[c].None? && c != p
  {
    SelfUnder(g, c, p);
  }

  /** The table after both nodes of a pair were linked to p. */
  function PairDepth(depth: seq<nat>, p: nat, k: nat, v: nat): (r: seq<nat>)
    requires p < |depth| && k < |depth| && v < |depth|
    ensures |r| == |depth|
  {
    var one := depth[k := depth[p] + 1];
    one[v := one[p] + 1]
  }

  /** Nothing hangs below c, or its depth is the right one below p already. */
  predicate PairLevel(g: Shape, depth: seq<nat>, p: nat, c: nat)
    requires p < |depth| && c < |depth| == |g.kids|
  {
    g.kids[c] == [] || depth[c] == depth[p] + 1
  }

  lemma PairStepped(nodes: seq<Node>, g: Shape, roots: seq<nat>, depth: seq<nat>, p: nat, k: nat, v: nat)
    requires Graph(g) && Stepped(g, depth) && p < |g.kids| == |nodes| && k < |nodes| && v < |nodes| && PairFits(nodes, g, roots, p, k, v)
    ensures |depth| == |g.kids| && Graph(Attach(g, p, |g.kids[p]|, k))
    ensures Stepped(Paired(g, p, k, v), PairDepth(depth, p, k, v)) <==> PairLevel(g, depth, p, k) && PairLevel(g, depth, p, v)
  {
    Counts(g);
    SelfUnder(g, k, p);
    SelfUnder(g, v, p);
    AttachGraph(g, p, |g.kids[p]|, k);
    var h, after := Paired(g, p, k, v), PairDepth(depth, p, k, v);
    assert h.owner == g.owner[k := Some(p)][v := Some(p)] by {
      AttachOwner(g, p, |g.kids[p]|, k);
      AttachOwner(Attach(g, p, |g.kids[p]|, k), p, |g.kids[p]| + 1, v);
    }
    hide Under;
    if Stepped(h, after) {
      if g.kids[k] != [] { KidStep(g, h, depth, after, k, p, k, v); }
      if g.kids[v] != [] { KidStep(g, h, depth, after, v, p, k, v); }
    }
    if PairLevel(g, depth, p, k) && PairLevel(g, depth, p, v) {
      forall n | 0 <= n < |h.owner| && h.owner[n].Some? ensures OneBelow(h, after, n) {
        if n != k && n != v {
          assert OneBelow(g, depth, n);
          assert Listed(g, n);
        }
      }
    }
  }

  /** A child that is no part of the pair tells its parent's depth. */
  lemma KidStep(g: Shape, h: Shape, depth: seq<nat>, after: seq<nat>, c: nat, p: nat, k: nat, v: nat)
    requires Graph(g) && Stepped(g, depth) && Stepped(h, after) && |h.owner| == |g.owner| && c < |g.kids| && g.kids[c] != []
    requires k < |g.owner| && v < |g.owner| && g.owner[k].None? && g.owner[v].None? && p < |depth| && p != k && p != v
    requires h.owner == g.owner[k := Some(p)][v := Some(p)] && after == PairDepth(depth, p, k, v) && (c == k || c == v)
    ensures depth[c] == depth[p] + 1
  {
    GraphAt(g, c, 0);
    var n := g.kids[c][0];
    assert OneBelow(g, depth, n) && OneBelow(h, after, n);
  }

  /** A key made just before has no children. */
  lemma NewLevel(g: Shape, depth: seq<nat>, p: nat, v: nat)
    requires Graph(g) && |depth| == |g.kids| && p < |depth| && v < |depth|
    ensures Graph(Sprout(g)) && |Sprout(g).kids| == |depth| + 1
    ensures PairLevel(Sprout(g), depth + [0], p, |depth|) && (PairLevel(Sprout(g), depth + [0], p, v) <==> PairLevel(g, depth, p, v))
  {
    SproutGraph(g);
  }

  /** What a splice leaves: from the new child down the depths are renewed, and only it has got a new parent. */
  ghost predicate Respliced(g: Shape, h: Shape, p: nat, v: nat, d: nat, before: seq<nat>, after: seq<nat>) {
    && Renewed(h, v, d, before, after) && |h.owner| == |g.owner| && v < |h.owner| && h.owner[v] == Some(p)
    && forall n :: 0 <= n < |h.owner| && n != v && h.owner[n].Some? ==> h.owner[n] == g.owner[n]
  }

  lemma SplicedOwners(g: Shape, p: nat, i: nat, v: nat)
    requires Graph(g) && p < |g.kids| && i < |g.kids[p]| && v < |g.kids|
    ensures var h := SplicedShape(g, p, i, v);
      && |h.owner| == |g.owner| && v < |h.owner| && h.owner[v] == Some(p)
      && forall n :: 0 <= n < |h.owner| && n != v && h.owner[n].Some? ==> h.owner[n] == g.owner[n]
  {
    GraphAt(g, p, i);
    DetachGraph(g, p, i);
    DetachOwner(g, p, i);
    if v != g.kids[p][i] { AttachOwner(Detach(g, p, i), p, i, v); }
  }

  lemma ResplicedStepped(g: Shape, h: Shape, p: nat, v: nat, d: nat, before: seq<nat>, after: seq<nat>)
    requires Graph(g) && Stepped(g, before) && Respliced(g, h, p, v, d, before, after)
    ensures p < |after| == |before| && (after[p] == before[p] ==> (Stepped(h, after) <==> d == before[p] + 1))
    ensures after[p] == before[p]
  {
    hide Under;
    ParentKept(h, p, v, d, before, after);
    RenewedStepped(g, h, v, d, before, after);
  }

  /** The parent is not under its child. */
  lemma ParentKept(h: Shape, p: nat, v: nat, d: nat, before: seq<nat>, after: seq<nat>)
    requires Renewed(h, v, d, before, after) && h.owner[v] == Some(p)
    ensures p < |after| == |before| && after[p] == before[p]
  {
    OwnerRank(h, v);
    if Under(h, v, p) { RankUnder(h, v, p); }
  }

  /**
   * map_set: the depths from the value down are renewed from one below the key's depth, so where every depth was one
   * below the parent's, the value's is two below its mapping's.
   */
  ghost predicate SetBelowKey(g: Shape, h: Shape, p: nat, i: nat, v: nat, before: seq<nat>, after: seq<nat>) {
    && p < |g.kids| && i < |g.kids[p]| && g.kids[p][i] < |before| && Renewed(h, v, before[g.kids[p][i]] + 1, before, after)
    && (Stepped(g, before) ==> p < |before| && v < |after| && after[v] == before[p] + 2 && !Stepped(h, after))
  }

  lemma KeyDeepens(g: Shape, h: Shape, p: nat, i: nat, v: nat, before: seq<nat>, after: seq<nat>)
    requires Graph(g) && p < |g.kids| && i < |g.kids[p]| && g.kids[p][i] < |before| && |before| == |g.kids|
    requires Respliced(g, h, p, v, before[g.kids[p][i]] + 1, before, after)
    ensures SetBelowKey(g, h, p, i, v, before, after)
  {
    hide Under;
    if Stepped(g, before) {
      GraphAt(g, p, i);
      var k := g.kids[p][i];
      assert OneBelow(g, before, k);
      ResplicedStepped(g, h, p, v, before[k] + 1, before, after);
    }
  }

  /** A loose node made a root. */
  lemma TopStepped(g: Shape, x: nat, before: seq<nat>, after: seq<nat>)
    requires Graph(g) && Stepped(g, before) && Renewed(g, x, 0, before, after) && x < |g.owner| && g.owner[x].None?
    ensures Stepped(g, after)
  {
    RenewedStepped(g, g, x, 0, before, after);
  }

  lemma AlongStep(nodes: seq<Node>, c: nat, fuel: nat, steps: nat)
    ensures Along(nodes, c, fuel, steps) <==>
            c == NONE || (c < |nodes| && steps > 0 && Returns(nodes, c, fuel) && Along(nodes, nodes[c].next, fuel, steps - 1))
  {
  }

  lemma TreeReturns(nodes: seq<Node>, g: Shape, att: seq<bool>, roots: seq<nat>, x: nat, fuel: nat)
    requires Forest(nodes, g, att, roots) && Graph(g) && x < |nodes| == |g.kids| && HeightOf(g, x) < fuel
    ensures Returns(nodes, x, fuel)
  {
    forall y | 0 <= y < |g.kids| && Under(g, x, y) ensures ChainIs(nodes, y, g.kids[y]) { ForestAt(nodes, g, att, roots, y); }
    hide Under, HeightOf, Graph;
    ForestReturns(nodes, g, x, fuel);
  }

  /** The shape a splice that fits leaves. */
  ghost function SplicedShape(g: Shape, p: nat, i: nat, v: nat): Shape
    requires Graph(g) && p < |g.kids| && i < |g.kids[p]| && v < |g.kids|
  {
    DetachGraph(g, p, i);
    if v == g.kids[p][i] then g else Swap(g, p, i, v)
  }

  /** All that a splice leaves: a forest exactly when the child fits, and a walk that comes back exactly when it is not above p. */
  lemma SpliceAll(nodes: seq<Node>, g: Shape, att: seq<bool>, roots: seq<nat>, p: nat, i: nat, v: nat, clear: bool)
    requires Forest(nodes, g, att, roots) && p < |nodes| && v < |nodes| && Graph(g) && |g.kids| == |att| == |nodes| && i < |g.kids[p]|
    requires HeightOf(g, v) < MAX_DEPTH
    ensures g.kids[p][i] < |nodes| && (i > 0 ==> g.kids[p][i - 1] < |nodes|)
    ensures var c := g.kids[p][i];
      var after, att1 := Replace(nodes, p, c, v, PrevOf(g.kids[p], i), clear), att[c := false][v := true];
      && (Returns(after, v, MAX_DEPTH) <==> !Under(g, v, p))
      && (if SpliceFits(g, roots, p, i, v, clear) then
            Forest(after, SplicedShape(g, p, i, v), att1, roots) && SplicedShape(g, p, i, v).kids == g.kids[p := Put(g.kids[p], i, v)]
            && (Flagged(g, att, roots) ==> Flagged(SplicedShape(g, p, i, v), att1, roots))
          else !IsForest(after, att1, roots))
  {
    GraphAt(g, p, i);
    if i > 0 { GraphAt(g, p, i - 1); }
    ForestChains(nodes, g, att, roots);
    hide Forest, Under, Replace, Swap, AllChains, Returns, IsForest, Flagged, SpliceFits, HeightOf;
    SpliceExactly(nodes, g, att, roots, p, i, v, clear);
    if Under(g, v, p) { NeverReturns(nodes, g, p, i, v, clear, MAX_DEPTH); }
    else {
      SplicedBelow(nodes, g, p, i, v, clear);
      ForestReturns(Replace(nodes, p, g.kids[p][i], v, PrevOf(g.kids[p], i), clear), g, v, MAX_DEPTH);
    }
    if SpliceFits(g, roots, p, i, v, clear) { SpliceKeeps(nodes, g, att, roots, p, i, v, clear); }
  }

  lemma SpliceKeeps(nodes: seq<Node>, g: Shape, att: seq<bool>, roots: seq<nat>, p: nat, i: nat, v: nat, clear: bool)
    requires Forest(nodes, g, att, roots) && p < |nodes| && v < |nodes| && Graph(g) && |g.kids| == |att| == |nodes| && i < |g.kids[p]|
    requires SpliceFits(g, roots, p, i, v, clear)
    ensures g.kids[p][i] < |nodes| && (i > 0 ==> g.kids[p][i - 1] < |nodes|)
    ensures var c := g.kids[p][i];
      var after, att1, h := Replace(nodes, p, c, v, PrevOf(g.kids[p], i), clear), att[c := false][v := true], SplicedShape(g, p, i, v);
      && Forest(after, h, att1, roots) && h.kids == g.kids[p := Put(g.kids[p], i, v)] && (Flagged(g, att, roots) ==> Flagged(h, att1, roots))
  {
    GraphAt(g, p, i);
    DetachGraph(g, p, i);
    ForestFlags(nodes, g, att, roots);
    hide Forest, Under, Replace, Graph;
    if v == g.kids[p][i] {
      SameChild(nodes, g, att, roots, p, i, clear);
      assert Put(g.kids[p], i, v) == g.kids[p];
      assert g.kids[p := Put(g.kids[p], i, v)] == g.kids;
    } else {
      ReplaceForest(nodes, g, att, roots, p, i, v, clear);
      SwapKids(g, p, i, v);
      AttachOwner(Detach(g, p, i), p, i, v);
    }
  }

  lemma AttachOwner(g: Shape, p: nat, i: nat, c: nat)
    requires Graph(g) && p < |g.kids| && c < |g.kids| && i <= |g.kids[p]|
    ensures Attach(g, p, i, c).owner == g.owner[c := Some(p)]
  {
  }

  lemma DetachFlags(nodes: seq<Node>, g: Shape, att: seq<bool>, roots: seq<nat>, p: nat, i: nat)
    requires Forest(nodes, g, att, roots) && p < |g.kids| && i < |g.kids[p]| && |att| == |g.kids|
    ensures g.kids[p][i] < |g.kids| && (Flagged(g, att, roots) ==> Flagged(Detach(g, p, i), att[g.kids[p][i] := false], roots))
  {
    ForestFlags(nodes, g, att, roots);
    GraphAt(g, p, i);
    hide Graph, Forest;
  }

  lemma DetachOwner(g: Shape, p: nat, i: nat)
    requires Graph(g) && p < |g.kids| && i < |g.kids[p]|
    ensures g.kids[p][i] < |g.kids| == |g.owner| && Detach(g, p, i).owner == g.owner[g.kids[p][i] := None]
  {
    GraphAt(g, p, i);
  }

  /** What one link that fits keeps. */
  lemma JoinAll(nodes: seq<Node>, g: Shape, att: seq<bool>, roots: seq<nat>, p: nat, c: nat, hash: Text -> nat,
                tabs: seq<Option<Slots>>, lays: seq<Lay>)
    requires Forest(nodes, g, att, roots) && Balanced(nodes, g.kids) && Tables(nodes, g.kids, hash, tabs, lays)
    requires p < |nodes| && nodes[p].kind == Seq && c < |nodes| && Graph(g) && |g.kids| == |att| == |nodes| && JoinFits(nodes, g, roots, p, c)
    ensures nodes[p].count > 0 ==> nodes[p].last < |nodes|
    ensures var after, h := Link(nodes, p, c), Joined(g, p, c);
      && Forest(after, h, att[c := true], roots) && h.kids == g.kids[p := g.kids[p] + [c]]
      && Balanced(after, h.kids) && Tables(after, h.kids, hash, tabs, lays)
      && (Flagged(g, att, roots) ==> Flagged(h, att[c := true], roots))
  {
    PairBounds(nodes, g, att, roots, p);
    hide Forest, Graph, Tables, Balanced, Under, Link, Labels;
    LinkExactly(nodes, g, att, roots, p, c);
    AppendKids(g, p, c);
    AttachOwner(g, p, |g.kids[p]|, c);
    LinkLabels(nodes, p, c);
    KeepTables(nodes, Link(nodes, p, c), g.kids, Joined(g, p, c).kids, p, hash, tabs, lays);
  }

  /** A key made for the pair fits; then the pair fits as its value did before. */
  lemma NewFits(nodes: seq<Node>, g: Shape, att: seq<bool>, roots: seq<nat>, p: nat, v: nat, data: Label)
    requires Forest(nodes, g, att, roots) && Graph(g) && p < |nodes| == |g.kids| && v <= |nodes|
    ensures Graph(Sprout(g)) && |Sprout(g).kids| == |nodes| + 1
    ensures PairFits(nodes + [Fresh(data, Leaf)], Sprout(g), roots, p, |nodes|, v) <==> v < |nodes| && JoinFits(nodes, g, roots, p, v)
  {
    ForestFlags(nodes, g, att, roots);
    SproutGraph(g);
    NewIsLoose(g, p, v);
    if v < |g.kids| && Under(g, v, p) { UnderInSprout(g, v, p); }
    hide Under, Graph, Forest;
  }

  lemma {:induction false} UnderInSprout(g: Shape, c: nat, n: nat)
    requires Graph(g) && c < |g.kids| && Graph(Sprout(g)) && Under(g, c, n)
    ensures Under(Sprout(g), c, n)
    decreases g.rank[c]
  {
    if n != c {
      var i :| 0 <= i < |g.kids[c]| && UnderKid(g, c, i, n);
      GraphAt(g, c, i);
      UnderInSprout(g, g.kids[c][i], n);
      assert UnderKid(Sprout(g), c, i, n);
    }
  }

  lemma DetachTwice(g: Shape, p: nat, i: nat)
    requires Graph(g) && p < |g.kids| && i + 1 < |g.kids[p]|
    ensures g.kids[p][i] < |g.kids| && g.kids[p][i + 1] < |g.kids|
    ensures var h := Detach(g, p, i);
      && h.kids == g.kids[p := h.kids[p]] && i < |h.kids[p]| && h.kids[p][i] == g.kids[p][i + 1]
      && Detach(h, p, i).kids == g.kids[p := g.kids[p][..i] + g.kids[p][i + 2..]]
  {
    GraphAt(g, p, i);
    GraphAt(g, p, i + 1);
    hide Graph;
    var s := g.kids[p];
    var cut := s[..i] + s[i + 1..];
    assert cut[..i] + cut[i + 1..] == s[..i] + s[i + 2..];
  }

  /** A new node is above nothing, and changes nobody's height or descent. */
  lemma NewIsLoose(g: Shape, p: nat, v: nat)
    requires Graph(g) && p < |g.kids|
    ensures Graph(Sprout(g)) && !Under(Sprout(g), |g.kids|, p)
    ensures v < |g.kids| && !Under(g, v, p) ==> !Under(Sprout(g), v, p)
    ensures v < |g.kids| ==> HeightOf(Sprout(g), v) == HeightOf(g, v)
  {
    SproutGraph(g);
    if v < |g.kids| {
      if Under(Sprout(g), v, p) { UnderSprout(g, v, p); }
      HeightSprout(g, v, |g.kids[v]|);
    }
  }

  lemma {:induction false} UnderSprout(g: Shape, c: nat, n: nat)
    requires Graph(g) && c < |g.kids| && Graph(Sprout(g)) && Under(Sprout(g), c, n)
    ensures Under(g, c, n)
    decreases g.rank[c]
  {
    if n != c {
      var i :| 0 <= i < |g.kids[c]| && UnderKid(Sprout(g), c, i, n);
      GraphAt(g, c, i);
      UnderSprout(g, g.kids[c][i], n);
      assert UnderKid(g, c, i, n);
    }
  }

  lemma {:induction false} HeightSprout(g: Shape, x: nat, i: nat)
    requires Graph(g) && x < |g.kids| && Graph(Sprout(g)) && i <= |g.kids[x]|
    ensures TallestOf(Sprout(g), x, i) == TallestOf(g, x, i)
    decreases g.rank[x], i
  {
    if i > 0 {
      GraphAt(g, x, i - 1);
      HeightSprout(g, x, i - 1);
      var k := g.kids[x][i - 1];
      HeightSprout(g, k, |g.kids[k]|);
    }
  }

  lemma MapEven(nodes: seq<Node>, kids: seq<seq<nat>>, p: nat)
    requires Balanced(nodes, kids) && p < |nodes| && nodes[p].kind == Map
    ensures p < |kids| && |kids[p]| % 2 == 0
  {
  }

  lemma FewerTables(nodes: seq<Node>, kids: seq<seq<nat>>, hash: Text -> nat, tabs: seq<Option<Slots>>, lays: seq<Lay>, p: nat)
    requires Tables(nodes, kids, hash, tabs, lays)
    ensures |lays| == |tabs| && Tables(nodes, kids, hash, if p < |tabs| then tabs[p := None] else tabs, lays)
  {
    hide TableOf;
  }

  /** Everything a pair that fits keeps. */
  lemma PairAll(nodes: seq<Node>, g: Shape, att: seq<bool>, roots: seq<nat>, p: nat, k: nat, v: nat, hash: Text -> nat,
                before: seq<Option<Slots>>, tabs: seq<Option<Slots>>, lays: seq<Lay>)
    requires Forest(nodes, g, att, roots) && Balanced(nodes, g.kids) && Tables(nodes, g.kids, hash, before, lays)
    requires p < |nodes| && nodes[p].kind == Map && k < |nodes| && v < |nodes| && Graph(g) && |g.kids| == |att| == |nodes|
    requires PairFits(nodes, g, roots, p, k, v)
    requires tabs == if p < |before| then before[p := None] else before
    ensures (nodes[p].count > 0 ==> nodes[p].last < |nodes|) && Graph(Attach(g, p, |g.kids[p]|, k))
    ensures var after, h := LinkPair(nodes, p, k, v), Paired(g, p, k, v);
      && Forest(after, h, att[k := true][v := true], roots) && h.kids == g.kids[p := g.kids[p] + [k, v]]
      && Balanced(after, h.kids) && Tables(after, h.kids, hash, tabs, lays)
      && (Flagged(g, att, roots) ==> Flagged(h, att[k := true][v := true], roots))
  {
    PairFlags(nodes, g, att, roots, p, k, v);
    hide Forest, Graph, Tables, Balanced, Under, Attach, LinkPair, PairFits, Paired, Labels, Flagged;
    PairForest(nodes, g, att, roots, p, k, v);
    PairLabels(nodes, p, k, v);
    MapEven(nodes, g.kids, p);
    PairLength(nodes, p, k, v);
    FewerTables(nodes, g.kids, hash, before, lays, p);
    KeepTables(nodes, LinkPair(nodes, p, k, v), g.kids, Paired(g, p, k, v).kids, p, hash, tabs, lays);
  }

  lemma PairFlags(nodes: seq<Node>, g: Shape, att: seq<bool>, roots: seq<nat>, p: nat, k: nat, v: nat)
    requires Forest(nodes, g, att, roots) && p < |nodes| && nodes[p].kind == Map && k < |nodes| && v < |nodes| && Graph(g) && |g.kids| == |att| == |nodes|
    requires PairFits(nodes, g, roots, p, k, v)
    ensures Graph(Attach(g, p, |g.kids[p]|, k))
    ensures Flagged(g, att, roots) ==> Flagged(Paired(g, p, k, v), att[k := true][v := true], roots)
  {
    PairForest(nodes, g, att, roots, p, k, v);
    hide Forest, Graph, Under, LinkPair, Lifted;
    AttachOwner(g, p, |g.kids[p]|, k);
    AttachOwner(Attach(g, p, |g.kids[p]|, k), p, |g.kids[p]| + 1, v);
  }

  lemma PairIs(nodes: seq<Node>, p: nat, k: nat, v: nat)
    requires p < |nodes| && k < |nodes| && v < |nodes| && (nodes[p].count > 0 ==> nodes[p].last < |nodes|)
    ensures |Link(nodes, p, k)| == |nodes| && (Link(nodes, p, k)[p].count > 0 ==> Link(nodes, p, k)[p].last < |nodes|)
    ensures LinkPair(nodes, p, k, v) == Link(Link(nodes, p, k), p, v)
  {
  }

  lemma PairLabels(nodes: seq<Node>, p: nat, k: nat, v: nat)
    requires p < |nodes| && k < |nodes| && v < |nodes| && (nodes[p].count > 0 ==> nodes[p].last < |nodes|)
    ensures Labels(nodes, LinkPair(nodes, p, k, v))
  {
    PairHeads(nodes, p, k, v);
    hide LinkPair;
  }

  lemma PairLength(nodes: seq<Node>, p: nat, k: nat, v: nat)
    requires p < |nodes| && k < |nodes| && v < |nodes| && (nodes[p].count > 0 ==> nodes[p].last < |nodes|)
    ensures |LinkPair(nodes, p, k, v)| == |nodes|
  {
  }

  lemma PairBounds(nodes: seq<Node>, g: Shape, att: seq<bool>, roots: seq<nat>, p: nat)
    requires Forest(nodes, g, att, roots) && p < |nodes|
    ensures |att| == |nodes| && (nodes[p].count > 0 ==> nodes[p].last < |nodes|)
  {
    ForestAt(nodes, g, att, roots, p);
    if nodes[p].count > 0 { LastOf(nodes, g, p); }
  }

  lemma NewIsFlat(g: Shape)
    requires Graph(g)
    ensures Graph(Sprout(g)) && HeightOf(Sprout(g), |g.kids|) == 0
  {
    SproutGraph(g);
  }

  lemma ParentDistinct(g: Shape, p: nat)
    requires Graph(g) && p < |g.kids|
    ensures Distinct(g.kids[p])
  {
    assert Parent(g, p);
  }

  lemma UnlinkKeepsNext(nodes: seq<Node>, g: Shape, att: seq<bool>, roots: seq<nat>, p: nat, i: nat, prev: Option<nat>)
    requires Forest(nodes, g, att, roots) && p < |nodes| && i < |g.kids[p]| && g.kids[p][i] < |nodes| && prev == PrevOf(g.kids[p], i)
    requires (prev.Some? ==> prev.value < |nodes|) && nodes[p].count > 0
    ensures |g.owner| == |nodes|
    ensures forall n :: 0 <= n < |nodes| && g.owner[n] != Some(p) ==> Unlink(nodes, p, g.kids[p][i], prev)[n].next == nodes[n].next
  {
    GraphAt(g, p, i);
    if i > 0 { GraphAt(g, p, i - 1); }
    hide Forest, Graph;
  }

  lemma UnlinkLabels(nodes: seq<Node>, p: nat, c: nat, prev: Option<nat>)
    requires p < |nodes| && c < |nodes| && (prev.Some? ==> prev.value < |nodes|) && nodes[p].count > 0
    ensures Labels(nodes, Unlink(nodes, p, c, prev)) && |Unlink(nodes, p, c, prev)| == |nodes| && Unlink(nodes, p, c, prev)[c].next == NONE
  {
  }

  lemma ReplaceLabels(nodes: seq<Node>, p: nat, c: nat, v: nat, prev: Option<nat>, clear: bool)
    requires p < |nodes| && c < |nodes| && v < |nodes| && (prev.Some? ==> prev.value < |nodes|)
    ensures Labels(nodes, Replace(nodes, p, c, v, prev, clear)) && |Replace(nodes, p, c, v, prev, clear)| == |nodes|
  {
    hide Replace;
    ReplaceKeeps(nodes, p, c, v, prev, clear);
  }

  /** Only p's chain changed, and p is no mapping or has no table. */
  lemma KeepTables(nodes: seq<Node>, after: seq<Node>, kids: seq<seq<nat>>, now: seq<seq<nat>>, p: nat, hash: Text -> nat,
                   tabs: seq<Option<Slots>>, lays: seq<Lay>)
    requires Balanced(nodes, kids) && Tables(nodes, kids, hash, tabs, lays) && Labels(nodes, after)
    requires |now| == |after| == |nodes| && p < |nodes| && now == kids[p := now[p]]
    requires (nodes[p].kind == Map ==> |now[p]| % 2 == 0) && (p < |tabs| && tabs[p].Some? ==> nodes[p].kind != Map)
    ensures Balanced(after, now) && Tables(after, now, hash, tabs, lays)
  {
    hide TableOf;
    forall m | 0 <= m < |tabs| && tabs[m].Some? ensures Inside(after, kids[m]) { TableInside(nodes, kids[m], hash, tabs[m].value, lays[m]); }
    TablesKept(nodes, after, kids, now, hash, tabs, lays);
  }

  /** Kinds and labels are never changed. */
  predicate Labels(before: seq<Node>, after: seq<Node>) {
    |after| >= |before| && forall n :: 0 <= n < |before| ==> after[n].kind == before[n].kind && after[n].data == before[n].data
  }

  lemma GraphOf(nodes: seq<Node>, g: Shape, att: seq<bool>, roots: seq<nat>)
    requires Forest(nodes, g, att, roots)
    ensures Graph(g) && |g.kids| == |nodes| == |att| == |g.rank| == |g.owner| && |nodes| < NONE
  {
  }

  lemma AppendKids(g: Shape, p: nat, c: nat)
    requires Graph(g) && p < |g.kids| && c < |g.kids|
    ensures Attach(g, p, |g.kids[p]|, c).kids == g.kids[p := g.kids[p] + [c]]
  {
    hide Under, Lifted;
    assert g.kids[p][..|g.kids[p]|] + [c] + g.kids[p][|g.kids[p]|..] == g.kids[p] + [c];
  }

  lemma TableInside(nodes: seq<Node>, ch: seq<nat>, hash: Text -> nat, slots: Slots, lay: Lay)
    requires TableOf(nodes, ch, hash, slots, lay)
    ensures Inside(nodes, ch)
  {
  }

  lemma LinkLabels(nodes: seq<Node>, p: nat, c: nat)
    requires p < |nodes| && c < |nodes| && (nodes[p].count > 0 ==> nodes[p].last < |nodes|)
    ensures Labels(nodes, Link(nodes, p, c)) && |Link(nodes, p, c)| == |nodes|
  {
  }

  /** A new node in the array. */
  lemma NewForest(nodes: seq<Node>, g: Shape, att: seq<bool>, roots: seq<nat>, data: Label, kind: Kind)
    requires Forest(nodes, g, att, roots) && |nodes| + 1 < NONE
    ensures Forest(nodes + [Fresh(data, kind)], Sprout(g), att + [false], roots)
  {
    SproutGraph(g);
    ForestChains(nodes, g, att, roots);
    ForestFlags(nodes, g, att, roots);
    var after, h := nodes + [Fresh(data, kind)], Sprout(g);
    hide Graph, Forest;
    forall x | 0 <= x < |after| ensures ChainIs(after, x, h.kids[x]) && (after[x].kind == Leaf ==> h.kids[x] == []) {
      if x < |nodes| {
        forall i | 0 <= i < |g.kids[x]| ensures LinkAt(after, g.kids[x], i) { assert LinkAt(nodes, g.kids[x], i); }
      }
    }
    ForestIs(after, h, att + [false], roots);
  }

  lemma SproutTables(nodes: seq<Node>, data: Label, kind: Kind, g: Shape, hash: Text -> nat, tabs: seq<Option<Slots>>, lays: seq<Lay>)
    requires |g.kids| == |nodes| && Balanced(nodes, g.kids) && Tables(nodes, g.kids, hash, tabs, lays)
    ensures Balanced(nodes + [Fresh(data, kind)], Sprout(g).kids) && Tables(nodes + [Fresh(data, kind)], Sprout(g).kids, hash, tabs, lays)
  {
    TablesKept(nodes, nodes + [Fresh(data, kind)], g.kids, Sprout(g).kids, hash, tabs, lays);
  }

  lemma ChainHead(nodes: seq<Node>, x: nat, ch: seq<nat>)
    requires ChainIs(nodes, x, ch)
    ensures nodes[x].first == (if ch == [] then NONE else ch[0]) && nodes[x].count == |ch|
  {
  }

  lemma ChainStep(nodes: seq<Node>, x: nat, ch: seq<nat>, i: nat)
    requires ChainIs(nodes, x, ch) && i <= |ch|
    ensures i < |ch| ==> ch[i] < |nodes| && nodes[ch[i]].next == (if i + 1 < |ch| then ch[i + 1] else NONE)
  {
    if i < |ch| { assert LinkAt(nodes, ch, i); }
  }

  // ---- searching and scanning ------------------------------------------------------------------------

  /** A key the mutations find stands in a key place behind i, and no key between has its text. */
  lemma {:induction false} ScanMeets(nodes: seq<Node>, ch: seq<nat>, key: Text, i: nat)
    requires Inside(nodes, ch) && |ch| % 2 == 0 && i % 2 == 0 && i <= |ch|
    ensures var at := FindKey(nodes, ch, key, i);
      && (at.None? ==> Scan(nodes, ch, key, i) == None)
      && (at.Some? && nodes[ch[at.value]].data.scalar ==> Scan(nodes, ch, key, i) == Some(ch[at.value]))
      && (at.Some? && !nodes[ch[at.value]].data.scalar && Scan(nodes, ch, key, i).Some? ==>
            Scan(nodes, ch, key, i).value < |nodes| && nodes[Scan(nodes, ch, key, i).value].data.scalar)
    decreases |ch| - i
  {
    if i < |ch| {
      assert Scan(nodes, ch, key, i + 1) == Scan(nodes, ch, key, i + 2);
      ScanMeets(nodes, ch, key, i + 2);
      if nodes[ch[i]].data.text == key && !nodes[ch[i]].data.scalar { ScansScalar(nodes, ch, key, i + 2); }
    }
  }

  lemma {:induction false} ScansScalar(nodes: seq<Node>, ch: seq<nat>, key: Text, i: nat)
    requires Inside(nodes, ch) && i <= |ch|
    ensures Scan(nodes, ch, key, i).Some? ==> Scan(nodes, ch, key, i).value < |nodes| && nodes[Scan(nodes, ch, key, i).value].data.scalar
    decreases |ch| - i
  {
    if i < |ch| { ScansScalar(nodes, ch, key, i + 1); }
  }

  /** The mutations find what the index finds exactly when the first key with the text is a scalar, or there is none. */
  lemma FindIsScan(nodes: seq<Node>, ch: seq<nat>, key: Text, i: nat)
    requires Inside(nodes, ch) && |ch| % 2 == 0 && i % 2 == 0 && i <= |ch|
    ensures var at := FindKey(nodes, ch, key, i);
      Scan(nodes, ch, key, i) == (if at.Some? then Some(ch[at.value]) else None) <==> (at.Some? ==> nodes[ch[at.value]].data.scalar)
  {
    ScanMeets(nodes, ch, key, i);
  }

  /** Where one is not, they can differ: an alias or a container key is found by its text, and never by the index. */
  lemma FindSeesAll(nodes: seq<Node>, k: nat, v: nat)
    requires k < |nodes| && v < |nodes| && !nodes[k].data.scalar
    ensures var ch, key := [k, v], nodes[k].data.text;
      Inside(nodes, ch) && FindKey(nodes, ch, key, 0) == Some(0) && Scan(nodes, ch, key, 0) == None
  {
    var ch, key := [k, v], nodes[k].data.text;
    assert Scan(nodes, ch, key, 2) == None;
    assert Scan(nodes, ch, key, 1) == None;
  }

  lemma {:induction false} ScanPast(nodes: seq<Node>, after: seq<Node>, ch: seq<nat>, more: seq<nat>, key: Text, i: nat)
    requires Inside(nodes, ch) && Inside(after, ch + more) && Labels(nodes, after) && i <= |ch| && |ch| % 2 == 0
    requires FindKey(nodes, ch, key, 0).None?
    ensures Scan(after, ch + more, key, i) == Scan(after, ch + more, key, |ch|)
    decreases |ch| - i
  {
    if i < |ch| { ScanPast(nodes, after, ch, more, key, i + 1); }
  }

  /** A pair that was added is the pair a lookup finds. */
  lemma AddedIsFound(nodes: seq<Node>, after: seq<Node>, ch: seq<nat>, k: nat, v: nat, key: Text)
    requires Inside(nodes, ch) && Labels(nodes, after) && |ch| % 2 == 0 && k < |after| && v < |after|
    requires FindKey(nodes, ch, key, 0).None? && after[k].data == Label(key, true)
    ensures Inside(after, ch + [k, v]) && Scan(after, ch + [k, v], key, 0) == Some(k)
  {
    ScanPast(nodes, after, ch, [k, v], key, 0);
  }

  // ---- a parsed document loses a child ---------------------------------------------------------------------

  /** The builder calls of a sequence of one scalar. */
  function OneElement(l: Label, m: Label): seq<Call<Label>> { [Begin(l, false), Item(m), End] }

  lemma OpenStep(l: Label)
    ensures Step(Empty(), Begin(l, false)) == Some(Store([Fresh(l, Seq)], [0], [0], [None]))
  {
    var s0: Store<Label> := Empty();
    var a := Add(s0, Fresh(l, ContainerKind(false)));
    assert a == Store([Fresh(l, Seq)], [], [], []);
    assert Place(a, 0) == Store([Fresh(l, Seq)], [0], [], []);
    assert Push(Place(a, 0), 0) == Store([Fresh(l, Seq)], [0], [0], [None]);
  }

  lemma ItemStep(l: Label, m: Label)
    ensures Sound(Store([Fresh(l, Seq)], [0], [0], [None]))
    ensures Step(Store([Fresh(l, Seq)], [0], [0], [None]), Item(m))
         == Some(Store([Slot(l, Seq, 1, 1, NONE, 1), Fresh(m, Leaf)], [0], [0], [None]))
  {
    var a := Add(Store([Fresh(l, Seq)], [0], [0], [None]), Fresh(m, Leaf));
    assert a == Store([Fresh(l, Seq), Fresh(m, Leaf)], [0], [0], [None]);
    assert Link(a.nodes, 0, 1) == [Slot(l, Seq, 1, 1, NONE, 1), Fresh(m, Leaf)];
  }

  lemma CloseStep(nodes: seq<Node>)
    requires Sound(Store(nodes, [0], [0], [None]))
    ensures Step(Store(nodes, [0], [0], [None]), End) == Some(Store(nodes, [0], [], []))
  {
  }

  lemma RunThree(s: Store<Label>, a: Call<Label>, b: Call<Label>, c: Call<Label>)
    requires Sound(s) && Step(s, a).Some? && Step(Step(s, a).value, b).Some? && Step(Step(Step(s, a).value, b).value, c).Some?
    ensures Run(s, [a, b, c]) == Step(Step(Step(s, a).value, b).value, c)
  {
    hide Step, Sound;
    assert [a, b, c][1..] == [b, c] && [b, c][1..] == [c] && [c][1..] == [];
    assert Run(Step(Step(s, a).value, b).value, [c]) == Step(Step(Step(s, a).value, b).value, c);
  }

  lemma OneElementBuilt(l: Label, m: Label)
    ensures Run(Empty(), OneElement(l, m))
         == Some(Store([Slot(l, Seq, 1, 1, NONE, 1), Slot(m, Leaf, NONE, NONE, NONE, 0)], [0], [], []))
  {
    OpenStep(l);
    ItemStep(l, m);
    hide Step;
    CloseStep([Slot(l, Seq, 1, 1, NONE, 1), Fresh(m, Leaf)]);
    RunThree(Empty(), Begin(l, false), Item(m), End);
  }

  /** A sequence of one scalar, parsed, and its own element added to it again: the call succeeds and the chain is a circle. */
  method AddAgain(hash: Text -> nat, l: Label, m: Label) returns (d: Document, s: Status)
    ensures fresh(d) && s == Done && !IsForest(d.nodes, d.att, d.roots)
    ensures |d.nodes| == 2 && d.nodes[1].next == 1
  {
    OneElementBuilt(l, m);
    var built := Store([Slot(l, Seq, 1, 1, NONE, 1), Slot(m, Leaf, NONE, NONE, NONE, 0)], [0], [], []);
    d := new Document.Parsed(hash, built, OneElement(l, m));
    d.At(0);
    d.At(1);
    GraphOf(d.nodes, d.g, d.att, d.roots);
    assert LinkAt(d.nodes, d.g.kids[0], 0);
    GraphAt(d.g, 0, 0);
    d.ParsedAdmitsAll(0, 1);
    assert d.g.kids[1] == [];
    s := d.SeqAdd(0, 1);
  }
  /** Three empty sequences. */
  method ThreeSequences(hash: Text -> nat, l: Label) returns (d: Document)
    ensures fresh(d) && d.Valid() && |d.nodes| == 3 && d.g.kids == [[], [], []] && d.depth == [0, 0, 0] && d.att == [false, false, false]
    ensures d.nodes == [Fresh(l, Seq), Fresh(l, Seq), Fresh(l, Seq)] && d.roots == [] && d.g.owner == [None, None, None]
  {
    hide Forest, Tables, Graph, Balanced;
    d := new Document(hash);
    Depths(d);
    var a := d.NewNode(l, Seq);
    var b := d.NewNode(l, Seq);
    var c := d.NewNode(l, Seq);
  }

  lemma Depths(d: Document)
    requires d.Valid() && d.nodes == []
    ensures d.depth == [] && d.att == [] && d.g.owner == []
  {
    GraphOf(d.nodes, d.g, d.att, d.roots);
    Counts(d.g);
  }

  /**
   * Built from the bottom up the depths are not the levels: the second sequence goes into the first, then the first into
   * the third. The second hangs two links below the third, and its depth stays 1.
   */
  method BottomUp(hash: Text -> nat, l: Label) returns (d: Document, s: Status, t: Status)
    ensures fresh(d) && s == t == Done && d.Valid() && d.depth == [1, 1, 0] && d.g.kids == [[1], [], [0]]
    ensures Graph(d.g) && Hangs(d.g, 2, 1, 2) && !Stepped(d.g, d.depth)
  {
    hide Forest, Tables, Graph, Balanced, HeightOf, Under, Hangs, Stepped, JoinFits;
    d := ThreeSequences(hash, l);
    Flat(d.nodes, d.g, d.att, d.roots);
    s := d.SeqAdd(0, 1);
    Appended([[], [], []], 0, 1, [1]);
    GraphOf(d.nodes, d.g, d.att, d.roots);
    assert d.g.kids == [[1], [], []];
    OneHigh(d.nodes, d.g, d.att, d.roots);
    t := d.SeqAdd(2, 0);
    Appended([[1], [], []], 2, 0, [0]);
    GraphOf(d.nodes, d.g, d.att, d.roots);
    assert d.g.kids == [[1], [], [0]];
    TwoBelow(d.g, d.depth);
  }

  lemma Appended(kids: seq<seq<nat>>, p: nat, c: nat, now: seq<nat>)
    requires p < |kids| && kids[p] == [] && now == [c]
    ensures kids[p := kids[p] + [c]] == kids[p := now]
  {
    assert kids[p] + [c] == now;
  }

  lemma Flat(nodes: seq<Node>, g: Shape, att: seq<bool>, roots: seq<nat>)
    requires Forest(nodes, g, att, roots) && g.kids == [[], [], []] && roots == [] && |nodes| == 3 && nodes[1].next == NONE
    ensures Graph(g) && HeightOf(g, 1) == 0 && JoinFits(nodes, g, roots, 0, 1) && Stepped(g, [0, 0, 0])
  {
    OwnersListed(g);
  }

  lemma OwnersListed(g: Shape)
    requires Graph(g)
    ensures forall n :: 0 <= n < |g.kids| && g.owner[n].Some? ==> g.owner[n].value < |g.kids| && n in g.kids[g.owner[n].value]
  {
    forall n | 0 <= n < |g.kids| && g.owner[n].Some? ensures g.owner[n].value < |g.kids| && n in g.kids[g.owner[n].value] {
      assert Listed(g, n);
    }
  }

  lemma OneHigh(nodes: seq<Node>, g: Shape, att: seq<bool>, roots: seq<nat>)
    requires Forest(nodes, g, att, roots) && g.kids == [[1], [], []] && roots == [] && |nodes| == 3 && nodes[0].next == NONE
    ensures Graph(g) && HeightOf(g, 0) == 1 && JoinFits(nodes, g, roots, 2, 0)
  {
    OwnersListed(g);
    GraphAt(g, 0, 0);
    assert HeightOf(g, 1) == 0;
    assert TallestOf(g, 0, 0) == 0;
    assert !Under(g, 1, 2);
    assert !UnderKid(g, 0, 0, 2);
  }

  lemma TwoBelow(g: Shape, depth: seq<nat>)
    requires Graph(g) && g.kids == [[1], [], [0]] && depth == [1, 1, 0]
    ensures Hangs(g, 2, 1, 2) && !Stepped(g, depth)
  {
    GraphAt(g, 0, 0);
    GraphAt(g, 2, 0);
    assert HangsKid(g, 0, 0, 1, 1);
    assert HangsKid(g, 2, 0, 1, 2);
    if Stepped(g, depth) { SteppedLevels(g, depth, 2, 1, 2); }
  }
}
