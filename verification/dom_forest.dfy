/** What the mutation API keeps: every container's chain is the sequence of its children, and the nodes are a forest. */
module DomForest {
  import opened Wrappers
  import opened DomStore

  datatype Label = Label(text: seq<int>, scalar: bool)
  type Node = Slot<Label>

  /** The children of every node, the parent of every node, and a rank that falls from parent to child. */
  datatype Shape = Shape(kids: seq<seq<nat>>, owner: seq<Option<nat>>, rank: seq<nat>)

  // ---- the graph ----------------------------------------------------------------------

  predicate Distinct(s: seq<nat>) { forall i, j :: 0 <= i < j < |s| ==> s[i] != s[j] }

  /** x is the parent of each of its children, and ranks above them. */
  predicate Parent(g: Shape, x: nat)
    requires x < |g.kids| == |g.owner| == |g.rank|
  {
    Distinct(g.kids[x]) && forall i :: 0 <= i < |g.kids[x]| ==> ChildOf(g, x, g.kids[x][i])
  }

  predicate ChildOf(g: Shape, x: nat, c: nat)
    requires x < |g.kids| == |g.owner| == |g.rank|
  {
    c < |g.kids| && g.owner[c] == Some(x) && g.rank[c] < g.rank[x]
  }

  /** Its parent lists n. */
  predicate Listed(g: Shape, n: nat)
    requires n < |g.owner| == |g.kids|
  {
    g.owner[n].Some? ==> g.owner[n].value < |g.kids| && n in g.kids[g.owner[n].value]
  }

  predicate Graph(g: Shape) {
    && |g.kids| == |g.owner| == |g.rank|
    && (forall x :: 0 <= x < |g.kids| ==> Parent(g, x))
    && (forall n :: 0 <= n < |g.kids| ==> Listed(g, n))
  }

  lemma GraphAt(g: Shape, x: nat, i: nat)
    requires Graph(g) && x < |g.kids| && i < |g.kids[x]|
    ensures ChildOf(g, x, g.kids[x][i])
  {
    assert Parent(g, x);
  }

  /** n is c or below it. */
  ghost predicate Under(g: Shape, c: nat, n: nat)
    requires Graph(g) && c < |g.kids|
    decreases g.rank[c]
  {
    n == c || exists i :: 0 <= i < |g.kids[c]| && UnderKid(g, c, i, n)
  }

  ghost predicate UnderKid(g: Shape, c: nat, i: nat, n: nat)
    requires Graph(g) && c < |g.kids| && i < |g.kids[c]|
    decreases g.rank[c], 0
  {
    GraphAt(g, c, i);
    Under(g, g.kids[c][i], n)
  }

  /** What is below c stays below c going up, until c itself. */
  lemma {:induction false} UnderUp(g: Shape, c: nat, n: nat)
    requires Graph(g) && c < |g.kids| && Under(g, c, n) && n != c
    ensures n < |g.kids| && g.owner[n].Some? && g.owner[n].value < |g.kids| && Under(g, c, g.owner[n].value)
    decreases g.rank[c]
  {
    var i :| 0 <= i < |g.kids[c]| && UnderKid(g, c, i, n);
    GraphAt(g, c, i);
    var k := g.kids[c][i];
    if n != k {
      UnderUp(g, k, n);
      assert UnderKid(g, c, i, g.owner[n].value);
    }
  }

  lemma {:induction false} UnderDown(g: Shape, c: nat, x: nat, j: nat)
    requires Graph(g) && c < |g.kids| && x < |g.kids| && Under(g, c, x) && j < |g.kids[x]|
    ensures Under(g, c, g.kids[x][j])
    decreases g.rank[c]
  {
    if x == c {
      GraphAt(g, x, j);
      assert UnderKid(g, c, j, g.kids[x][j]);
    } else {
      var i :| 0 <= i < |g.kids[c]| && UnderKid(g, c, i, x);
      GraphAt(g, c, i);
      UnderDown(g, g.kids[c][i], x, j);
      assert UnderKid(g, c, i, g.kids[x][j]);
    }
  }

  /** The tree under c keeps its ranks, everything else is lifted above them. */
  ghost function Lifted(g: Shape, c: nat): (r: seq<nat>)
    requires Graph(g) && c < |g.kids|
    ensures |r| == |g.rank|
  {
    seq(|g.rank|, n requires 0 <= n < |g.rank| => if Under(g, c, n) then g.rank[n] else g.rank[n] + g.rank[c] + 1)
  }

  /** c becomes child i of p. */
  ghost function Attach(g: Shape, p: nat, i: nat, c: nat): Shape
    requires Graph(g) && p < |g.kids| && c < |g.kids| && i <= |g.kids[p]|
  {
    Shape(g.kids[p := g.kids[p][..i] + [c] + g.kids[p][i..]], g.owner[c := Some(p)], Lifted(g, c))
  }

  lemma LiftedEdge(g: Shape, c: nat, x: nat, n: nat)
    requires Graph(g) && c < |g.kids| && g.owner[c].None? && x < |g.kids| && n in g.kids[x]
    ensures n < |g.kids| && Lifted(g, c)[n] < Lifted(g, c)[x]
  {
    var j :| 0 <= j < |g.kids[x]| && g.kids[x][j] == n;
    GraphAt(g, x, j);
    if Under(g, c, x) { UnderDown(g, c, x, j); } else if Under(g, c, n) { UnderUp(g, c, n); }
  }

  /** A root that is not above p may become a child of p: the graph stays a forest. */
  lemma AttachGraph(g: Shape, p: nat, i: nat, c: nat)
    requires Graph(g) && p < |g.kids| && c < |g.kids| && i <= |g.kids[p]| && g.owner[c].None? && !Under(g, c, p)
    ensures Graph(Attach(g, p, i, c))
  {
    var h := Attach(g, p, i, c);
    hide Under, Lifted;
    forall x | 0 <= x < |h.kids| ensures Parent(h, x) {
      AttachParent(g, p, i, c, x);
    }
    forall n | 0 <= n < |h.kids| ensures Listed(h, n) {
      assert Listed(g, n);
      if n == c {
        assert h.kids[p][i] == c;
      } else if g.owner[n] == Some(p) {
        InsertKeeps(g.kids[p], i, c, n);
      }
    }
  }

  lemma InsertKeeps(s: seq<nat>, i: nat, c: nat, n: nat)
    requires i <= |s| && n in s
    ensures n in s[..i] + [c] + s[i..]
  {
    var j :| 0 <= j < |s| && s[j] == n;
    var r := s[..i] + [c] + s[i..];
    assert if j < i then r[j] == n else r[j + 1] == n;
  }

  lemma AttachParent(g: Shape, p: nat, i: nat, c: nat, x: nat)
    requires Graph(g) && p < |g.kids| && c < |g.kids| && i <= |g.kids[p]| && g.owner[c].None? && !Under(g, c, p) && x < |g.kids|
    ensures Parent(Attach(g, p, i, c), x)
  {
    var h := Attach(g, p, i, c);
    assert Parent(g, x);
    LiftedAbove(g, c, p);
    hide Under, Lifted;
    var was, ks := g.kids[x], h.kids[x];
    forall j | 0 <= j < |ks| ensures ChildOf(h, x, ks[j]) {
      if x == p && j == i {
      } else {
        var k := if x == p && j > i then j - 1 else j;
        assert ks[j] == was[k];
        GraphAt(g, x, k);
        LiftedEdge(g, c, x, was[k]);
      }
    }
    if x == p { InsertDistinct(g, p, i, c); }
  }

  lemma LiftedAbove(g: Shape, c: nat, p: nat)
    requires Graph(g) && c < |g.kids| && p < |g.kids| && !Under(g, c, p)
    ensures Lifted(g, c)[c] < Lifted(g, c)[p]
  {
    assert Under(g, c, c);
  }

  lemma InsertDistinct(g: Shape, p: nat, i: nat, c: nat)
    requires Graph(g) && p < |g.kids| && c < |g.kids| && i <= |g.kids[p]| && g.owner[c].None?
    ensures Distinct(g.kids[p][..i] + [c] + g.kids[p][i..])
  {
    var s := g.kids[p];
    var r := s[..i] + [c] + s[i..];
    assert Parent(g, p);
    forall a, b | 0 <= a < b < |r| ensures r[a] != r[b] {
      if a != i { GraphAt(g, p, if a < i then a else a - 1); }
      if b != i { GraphAt(g, p, if b < i then b else b - 1); }
    }
  }

  /** Child i of p becomes a root. */
  function Detach(g: Shape, p: nat, i: nat): Shape
    requires |g.kids| == |g.owner| && p < |g.kids| && i < |g.kids[p]| && g.kids[p][i] < |g.kids|
  {
    Shape(g.kids[p := g.kids[p][..i] + g.kids[p][i + 1..]], g.owner[g.kids[p][i] := None], g.rank)
  }

  lemma DetachGraph(g: Shape, p: nat, i: nat)
    requires Graph(g) && p < |g.kids| && i < |g.kids[p]|
    ensures g.kids[p][i] < |g.kids| && Graph(Detach(g, p, i))
  {
    GraphAt(g, p, i);
    var h, c := Detach(g, p, i), g.kids[p][i];
    forall x | 0 <= x < |h.kids| ensures Parent(h, x) {
      assert Parent(g, x);
      forall j | 0 <= j < |h.kids[x]| ensures ChildOf(h, x, h.kids[x][j]) {
        var k := if x == p && j >= i then j + 1 else j;
        assert h.kids[x][j] == g.kids[x][k];
        GraphAt(g, x, k);
      }
    }
    forall n | 0 <= n < |h.kids| ensures Listed(h, n) {
      assert Listed(g, n);
      if n != c && g.owner[n] == Some(p) {
        var j :| 0 <= j < |g.kids[p]| && g.kids[p][j] == n;
        assert if j < i then h.kids[p][j] == n else h.kids[p][j - 1] == n;
      }
    }
  }

  /** A new node stands alone. */
  function Sprout(g: Shape): Shape { Shape(g.kids + [[]], g.owner + [None], g.rank + [0]) }

  lemma SproutGraph(g: Shape)
    requires Graph(g)
    ensures Graph(Sprout(g))
  {
    var h := Sprout(g);
    forall x | 0 <= x < |h.kids| ensures Parent(h, x) {
      if x < |g.kids| {
        assert Parent(g, x);
        forall j | 0 <= j < |g.kids[x]| ensures ChildOf(h, x, h.kids[x][j]) { GraphAt(g, x, j); }
      }
    }
    forall n | 0 <= n < |h.kids| ensures Listed(h, n) {
      if n < |g.kids| { assert Listed(g, n); }
    }
  }

  // ---- the chains -------------------------------------------------------------------------

  function NextIn(ch: seq<nat>, i: nat): nat
    requires i < |ch|
  {
    if i + 1 < |ch| then ch[i + 1] else NONE
  }

  /** The sibling chain of x is exactly ch: it has count nodes, starts at first and ends at last. */
  predicate ChainIs(nodes: seq<Node>, x: nat, ch: seq<nat>) {
    && x < |nodes| && nodes[x].count == |ch|
    && nodes[x].first == (if ch == [] then NONE else ch[0])
    && (ch != [] ==> nodes[x].last == ch[|ch| - 1])
    && forall i :: 0 <= i < |ch| ==> LinkAt(nodes, ch, i)
  }

  predicate LinkAt(nodes: seq<Node>, ch: seq<nat>, i: nat)
    requires i < |ch|
  {
    ch[i] < |nodes| && nodes[ch[i]].next == NextIn(ch, i)
  }

  /**
   * The nodes in memory are the forest g: chains, leaves without children, roots that are nobody's children. A node
   * with its attached bit set is a child or a root; a document that was parsed has children and roots without the bit.
   */
  predicate Forest(nodes: seq<Node>, g: Shape, att: seq<bool>, roots: seq<nat>) {
    && Graph(g) && |g.kids| == |nodes| == |att| && |nodes| < NONE
    && (forall x :: 0 <= x < |nodes| ==> ChainIs(nodes, x, g.kids[x]) && (nodes[x].kind == Leaf ==> g.kids[x] == []))
    && (forall n :: 0 <= n < |nodes| && att[n] ==> g.owner[n].Some? || n in roots)
    && (forall k :: 0 <= k < |roots| ==> roots[k] < |nodes| && g.owner[roots[k]].None?)
    && Distinct(roots)
  }

  lemma ForestAt(nodes: seq<Node>, g: Shape, att: seq<bool>, roots: seq<nat>, x: nat)
    requires Forest(nodes, g, att, roots) && x < |nodes|
    ensures ChainIs(nodes, x, g.kids[x]) && (nodes[x].kind == Leaf ==> g.kids[x] == [])
    ensures att[x] ==> g.owner[x].Some? || x in roots
  {
  }

  /** Nodes elsewhere in the forest keep their chains when only the links in p's chain change. */
  lemma OtherChain(nodes: seq<Node>, after: seq<Node>, g: Shape, p: nat, x: nat)
    requires Graph(g) && |g.kids| == |nodes| == |after| && p < |nodes| && x < |nodes| && x != p && ChainIs(nodes, x, g.kids[x])
    requires forall n :: 0 <= n < |nodes| && n != p ==>
      after[n].first == nodes[n].first && after[n].last == nodes[n].last && after[n].count == nodes[n].count
    requires forall n :: 0 <= n < |nodes| && g.owner[n].Some? && g.owner[n] != Some(p) ==> after[n].next == nodes[n].next
    ensures ChainIs(after, x, g.kids[x])
  {
    forall i | 0 <= i < |g.kids[x]| ensures LinkAt(after, g.kids[x], i) {
      assert LinkAt(nodes, g.kids[x], i);
      GraphAt(g, x, i);
    }
  }

  /** Outside p's chain and p's own head nothing changed. */
  predicate Elsewhere(nodes: seq<Node>, after: seq<Node>, g: Shape, p: nat) {
    && |g.kids| == |g.owner| == |nodes| == |after|
    && (forall n :: 0 <= n < |nodes| ==> after[n].kind == nodes[n].kind && after[n].data == nodes[n].data)
    && (forall n :: 0 <= n < |nodes| && n != p ==>
          after[n].first == nodes[n].first && after[n].last == nodes[n].last && after[n].count == nodes[n].count)
    && (forall n :: 0 <= n < |nodes| && g.owner[n].Some? && g.owner[n] != Some(p) ==> after[n].next == nodes[n].next)
  }

  predicate AllChains(nodes: seq<Node>, kids: seq<seq<nat>>) {
    |kids| == |nodes| && forall x :: 0 <= x < |nodes| ==> ChainIs(nodes, x, kids[x]) && (nodes[x].kind == Leaf ==> kids[x] == [])
  }

  lemma ForestChains(nodes: seq<Node>, g: Shape, att: seq<bool>, roots: seq<nat>)
    requires Forest(nodes, g, att, roots)
    ensures Graph(g) && AllChains(nodes, g.kids) && |nodes| == |att| < NONE
  {
    hide Graph, ChainIs;
  }

  /** With p's new chain in place all chains are. */
  lemma OthersKept(nodes: seq<Node>, after: seq<Node>, g: Shape, p: nat, ch: seq<nat>)
    requires Graph(g) && AllChains(nodes, g.kids) && Elsewhere(nodes, after, g, p) && p < |nodes|
    requires ChainIs(after, p, ch) && nodes[p].kind != Leaf
    ensures AllChains(after, g.kids[p := ch])
  {
    hide ChainIs, Graph;
    var kids := g.kids[p := ch];
    forall x | 0 <= x < |after| ensures ChainIs(after, x, kids[x]) && (after[x].kind == Leaf ==> kids[x] == []) {
      if x != p { OtherChain(nodes, after, g, p, x); }
    }
  }

  predicate Flags(owner: seq<Option<nat>>, att: seq<bool>, roots: seq<nat>) {
    && |att| == |owner|
    && (forall n :: 0 <= n < |att| && att[n] ==> owner[n].Some? || n in roots)
    && (forall k :: 0 <= k < |roots| ==> roots[k] < |owner| && owner[roots[k]].None?)
    && Distinct(roots)
  }

  lemma ForestFlags(nodes: seq<Node>, g: Shape, att: seq<bool>, roots: seq<nat>)
    requires Forest(nodes, g, att, roots)
    ensures Flags(g.owner, att, roots)
  {
    hide ChainIs;
  }

  lemma ForestIs(nodes: seq<Node>, g: Shape, att: seq<bool>, roots: seq<nat>)
    requires Graph(g) && AllChains(nodes, g.kids) && Flags(g.owner, att, roots) && |nodes| < NONE
    ensures Forest(nodes, g, att, roots)
  {
    hide ChainIs;
  }

  lemma FlagAttached(owner: seq<Option<nat>>, att: seq<bool>, roots: seq<nat>, c: nat, p: nat)
    requires Flags(owner, att, roots) && c < |att| && owner[c].None? && c !in roots
    ensures Flags(owner[c := Some(p)], att[c := true], roots)
  {
  }

  lemma FlagDetached(owner: seq<Option<nat>>, att: seq<bool>, roots: seq<nat>, c: nat)
    requires Flags(owner, att, roots) && c < |att| && owner[c].Some?
    ensures Flags(owner[c := None], att[c := false], roots)
  {
  }

  // ---- the operations on memory ---------------------------------------------------------------

  /** A node that is no root and nobody's child. */
  predicate Loose(g: Shape, roots: seq<nat>, c: nat) { c < |g.owner| && g.owner[c].None? && c !in roots }

  /** Every child and every root has its bit: documents made by mutations alone. */
  predicate Flagged(g: Shape, att: seq<bool>, roots: seq<nat>) {
    |att| == |g.owner| && forall n :: 0 <= n < |att| && (g.owner[n].Some? || n in roots) ==> att[n]
  }

  /** Appending c to p with dom_link, which leaves c's own next alone. */
  lemma LinkForest(nodes: seq<Node>, g: Shape, att: seq<bool>, roots: seq<nat>, p: nat, c: nat)
    requires Forest(nodes, g, att, roots) && Loose(g, roots, c) && p < |nodes| && nodes[p].kind != Leaf && !Under(g, c, p)
    requires nodes[c].next == NONE
    ensures nodes[p].count > 0 ==> nodes[p].last < |nodes|
    ensures Forest(Link(nodes, p, c), Attach(g, p, |g.kids[p]|, c), att[c := true], roots)
  {
    ForestAt(nodes, g, att, roots, p);
    SelfUnder(g, c, p);
    ForestChains(nodes, g, att, roots);
    ForestFlags(nodes, g, att, roots);
    hide Under, Lifted, Graph, Forest, AllChains, Elsewhere, Flags, ChainIs, Link;
    LinkedChain(nodes, g, p, c);
    LinkElsewhere(nodes, g, p, c);
    OthersKept(nodes, Link(nodes, p, c), g, p, g.kids[p] + [c]);
    AttachGraph(g, p, |g.kids[p]|, c);
    FlagAttached(g.owner, att, roots, c, p);
    assert g.kids[p][..|g.kids[p]|] + [c] + g.kids[p][|g.kids[p]|..] == g.kids[p] + [c];
    ForestIs(Link(nodes, p, c), Attach(g, p, |g.kids[p]|, c), att[c := true], roots);
  }

  lemma LinkElsewhere(nodes: seq<Node>, g: Shape, p: nat, c: nat)
    requires Graph(g) && |g.kids| == |nodes| && p < |nodes| && c < |nodes| && ChainIs(nodes, p, g.kids[p])
    ensures nodes[p].count > 0 ==> nodes[p].last < |nodes|
    ensures Elsewhere(nodes, Link(nodes, p, c), g, p)
  {
    if g.kids[p] != [] { GraphAt(g, p, |g.kids[p]| - 1); }
    hide Graph;
  }

  lemma SelfUnder(g: Shape, c: nat, p: nat)
    requires Graph(g) && c < |g.kids| && !Under(g, c, p)
    ensures c != p
  {
  }

  /** The appended chain is the old one with c behind it exactly when nothing hangs behind c. */
  lemma LinkedChain(nodes: seq<Node>, g: Shape, p: nat, c: nat)
    requires Graph(g) && |g.kids| == |nodes| && p < |nodes| && c < |nodes| && c != p && ChainIs(nodes, p, g.kids[p]) && g.owner[c].None?
    ensures nodes[p].count > 0 ==> nodes[p].last < |nodes|
    ensures ChainIs(Link(nodes, p, c), p, g.kids[p] + [c]) <==> nodes[c].next == NONE
  {
    var ch := g.kids[p];
    assert Parent(g, p);
    var after, next := Link(nodes, p, c), ch + [c];
    forall i | 0 <= i < |ch| ensures ch[i] != c && LinkAt(after, next, i) {
      assert LinkAt(nodes, ch, i);
      GraphAt(g, p, i);
    }
    assert LinkAt(after, next, |ch|) <==> nodes[c].next == NONE;
  }

  /** Taking c, child i of p, out of the chain: the node before it, or p, now leads to the one behind it. */
  function Unlink(nodes: seq<Node>, p: nat, c: nat, prev: Option<nat>): (r: seq<Node>)
    requires p < |nodes| && c < |nodes| && (prev.Some? ==> prev.value < |nodes|) && nodes[p].count > 0
    ensures |r| == |nodes|
  {
    var next := nodes[c].next;
    var a := if prev.None? then nodes[p := nodes[p].(first := next)] else nodes[prev.value := nodes[prev.value].(next := next)];
    var last := if a[p].last != c then a[p].last else if prev.None? then NONE else prev.value;
    var b := a[p := a[p].(last := last, count := a[p].count - 1)];
    b[c := b[c].(next := NONE)]
  }

  function PrevOf(ch: seq<nat>, i: nat): Option<nat>
    requires i < |ch|
  {
    if i == 0 then None else Some(ch[i - 1])
  }

  lemma UnlinkForest(nodes: seq<Node>, g: Shape, att: seq<bool>, roots: seq<nat>, p: nat, i: nat)
    requires Forest(nodes, g, att, roots) && p < |nodes| && i < |g.kids[p]|
    ensures g.kids[p][i] < |nodes| && (i > 0 ==> g.kids[p][i - 1] < |nodes|) && nodes[p].count > 0
    ensures Forest(Unlink(nodes, p, g.kids[p][i], PrevOf(g.kids[p], i)), Detach(g, p, i), att[g.kids[p][i] := false], roots)
  {
    ForestAt(nodes, g, att, roots, p);
    GraphAt(g, p, i);
    ForestChains(nodes, g, att, roots);
    ForestFlags(nodes, g, att, roots);
    hide Graph, Forest, AllChains, Elsewhere, Flags, ChainIs, Unlink;
    var ch, c := g.kids[p], g.kids[p][i];
    UnlinkedChain(nodes, g, p, i);
    UnlinkElsewhere(nodes, g, p, i);
    OthersKept(nodes, Unlink(nodes, p, c, PrevOf(ch, i)), g, p, ch[..i] + ch[i + 1..]);
    DetachGraph(g, p, i);
    FlagDetached(g.owner, att, roots, c);
    ForestIs(Unlink(nodes, p, c, PrevOf(ch, i)), Detach(g, p, i), att[c := false], roots);
  }

  lemma UnlinkElsewhere(nodes: seq<Node>, g: Shape, p: nat, i: nat)
    requires Graph(g) && |g.kids| == |nodes| && p < |nodes| && i < |g.kids[p]| && ChainIs(nodes, p, g.kids[p])
    ensures g.kids[p][i] < |nodes| && (i > 0 ==> g.kids[p][i - 1] < |nodes|) && nodes[p].count > 0
    ensures Elsewhere(nodes, Unlink(nodes, p, g.kids[p][i], PrevOf(g.kids[p], i)), g, p)
  {
    GraphAt(g, p, i);
    if i > 0 { GraphAt(g, p, i - 1); }
    hide Graph;
  }

  /** What unlinking does to the links and to p. */
  lemma UnlinkEffect(nodes: seq<Node>, p: nat, c: nat, prev: Option<nat>)
    requires p < |nodes| && c < |nodes| && (prev.Some? ==> prev.value < |nodes| && prev.value != c) && nodes[p].count > 0 && p != c
    ensures var after := Unlink(nodes, p, c, prev);
      && (forall n :: 0 <= n < |nodes| ==> after[n].next == (if n == c then NONE else if prev == Some(n) then nodes[c].next else nodes[n].next))
      && after[p].count == nodes[p].count - 1
      && after[p].first == (if prev.None? then nodes[c].next else nodes[p].first)
      && after[p].last == (if nodes[p].last != c then nodes[p].last else if prev.None? then NONE else prev.value)
  {
  }

  lemma UnlinkedChain(nodes: seq<Node>, g: Shape, p: nat, i: nat)
    requires Graph(g) && |g.kids| == |nodes| < NONE && p < |nodes| && i < |g.kids[p]| && ChainIs(nodes, p, g.kids[p])
    ensures g.kids[p][i] < |nodes| && (i > 0 ==> g.kids[p][i - 1] < |nodes|) && nodes[p].count > 0
    ensures ChainIs(Unlink(nodes, p, g.kids[p][i], PrevOf(g.kids[p], i)), p, g.kids[p][..i] + g.kids[p][i + 1..])
  {
    var ch, c := g.kids[p], g.kids[p][i];
    assert Parent(g, p);
    GraphAt(g, p, i);
    if i > 0 { GraphAt(g, p, i - 1); }
    UnlinkEffect(nodes, p, c, PrevOf(ch, i));
    hide Unlink, Graph, Parent, NextIn;
    var after, rest := Unlink(nodes, p, c, PrevOf(ch, i)), ch[..i] + ch[i + 1..];
    assert LinkAt(nodes, ch, i);
    forall j | 0 <= j < |rest| ensures LinkAt(after, rest, j) {
      RestNext(ch, i, j);
      assert LinkAt(nodes, ch, if j < i then j else j + 1);
    }
    RestEnds(ch, i);
  }

  /** The links of a sequence without its element i. */
  lemma RestNext(ch: seq<nat>, i: nat, j: nat)
    requires i < |ch| && j + 1 < |ch| && Distinct(ch)
    ensures var rest := ch[..i] + ch[i + 1..];
      var k := if j < i then j else j + 1;
      && rest[j] == ch[k] && ch[k] != ch[i] && (PrevOf(ch, i) == Some(ch[k]) <==> k + 1 == i)
      && NextIn(rest, j) == (if k + 1 == i then NextIn(ch, i) else NextIn(ch, k))
  {
  }

  lemma RestEnds(ch: seq<nat>, i: nat)
    requires i < |ch| && Distinct(ch)
    ensures var rest := ch[..i] + ch[i + 1..];
      && |rest| == |ch| - 1
      && (if rest == [] then NONE else rest[0]) == (if i == 0 then NextIn(ch, 0) else ch[0])
      && (rest != [] ==> rest[|rest| - 1] == if i == |ch| - 1 then ch[i - 1] else ch[|ch| - 1])
      && (ch[|ch| - 1] == ch[i] <==> i == |ch| - 1)
  {
  }

  /** v takes the place of c in p's chain: in a sequence c loses its own next, in a mapping it keeps it and v is linked first. */
  function Replace(nodes: seq<Node>, p: nat, c: nat, v: nat, prev: Option<nat>, clear: bool): (r: seq<Node>)
    requires p < |nodes| && c < |nodes| && v < |nodes| && (prev.Some? ==> prev.value < |nodes|)
    ensures |r| == |nodes|
  {
    var a := if clear then nodes else nodes[v := nodes[v].(next := nodes[c].next)];
    var b := if prev.None? then a[p := a[p].(first := v)] else a[prev.value := a[prev.value].(next := v)];
    var d := if b[p].last == c then b[p := b[p].(last := v)] else b;
    if !clear then d
    else
      var e := d[v := d[v].(next := d[c].next)];
      e[c := e[c].(next := NONE)]
  }

  lemma {:induction false} UnderDetach(g: Shape, p: nat, i: nat, c: nat, n: nat)
    requires Graph(g) && p < |g.kids| && i < |g.kids[p]| && g.kids[p][i] < |g.kids| && Graph(Detach(g, p, i)) && c < |g.kids|
    requires Under(Detach(g, p, i), c, n)
    ensures Under(g, c, n)
    decreases g.rank[c]
  {
    var h := Detach(g, p, i);
    if n != c {
      var j :| 0 <= j < |h.kids[c]| && UnderKid(h, c, j, n);
      GraphAt(h, c, j);
      var k := if c == p && j >= i then j + 1 else j;
      assert h.kids[c][j] == g.kids[c][k];
      GraphAt(g, c, k);
      UnderDetach(g, p, i, g.kids[c][k], n);
      assert UnderKid(g, c, k, n);
    }
  }

  function Put(s: seq<nat>, i: nat, v: nat): seq<nat>
    requires i < |s|
  {
    s[i := v]
  }

  /** Child i of p replaced by v. */
  ghost function Swap(g: Shape, p: nat, i: nat, v: nat): Shape
    requires Graph(g) && p < |g.kids| && i < |g.kids[p]| && v < |g.kids|
    requires g.kids[p][i] < |g.kids| && Graph(Detach(g, p, i))
  {
    Attach(Detach(g, p, i), p, i, v)
  }

  lemma SwapKids(g: Shape, p: nat, i: nat, v: nat)
    requires Graph(g) && p < |g.kids| && i < |g.kids[p]| && v < |g.kids|
    ensures g.kids[p][i] < |g.kids| && Graph(Detach(g, p, i))
    ensures Swap(g, p, i, v).kids == g.kids[p := Put(g.kids[p], i, v)]
  {
    hide Under, Lifted;
    DetachGraph(g, p, i);
    var s := g.kids[p];
    var cut := s[..i] + s[i + 1..];
    assert cut[..i] + [v] + cut[i..] == Put(s, i, v);
  }

  lemma ReplaceForest(nodes: seq<Node>, g: Shape, att: seq<bool>, roots: seq<nat>, p: nat, i: nat, v: nat, clear: bool)
    requires Forest(nodes, g, att, roots) && p < |nodes| && i < |g.kids[p]| && Loose(g, roots, v) && !Under(g, v, p)
    ensures g.kids[p][i] < |nodes| && (i > 0 ==> g.kids[p][i - 1] < |nodes|) && v < |nodes| && Graph(Detach(g, p, i))
    ensures Forest(Replace(nodes, p, g.kids[p][i], v, PrevOf(g.kids[p], i), clear), Swap(g, p, i, v), att[g.kids[p][i] := false][v := true], roots)
  {
    ForestAt(nodes, g, att, roots, p);
    GraphAt(g, p, i);
    SelfUnder(g, v, p);
    ForestChains(nodes, g, att, roots);
    ForestFlags(nodes, g, att, roots);
    DetachGraph(g, p, i);
    hide Under, Lifted, Swap, Attach, Graph, Forest, AllChains, Elsewhere, Flags, ChainIs, Replace;
    var ch, c := g.kids[p], g.kids[p][i];
    if Under(Detach(g, p, i), v, p) { UnderDetach(g, p, i, v, p); }
    SwapKids(g, p, i, v);
    SwapOwner(g, p, i, v);
    ReplacedChain(nodes, g, p, i, v, clear);
    ReplaceElsewhere(nodes, g, p, i, v, clear);
    var after := Replace(nodes, p, c, v, PrevOf(ch, i), clear);
    OthersKept(nodes, after, g, p, Put(ch, i, v));
    FlagDetached(g.owner, att, roots, c);
    FlagAttached(g.owner[c := None], att[c := false], roots, v, p);
    ForestIs(after, Swap(g, p, i, v), att[c := false][v := true], roots);
  }

  lemma ReplaceElsewhere(nodes: seq<Node>, g: Shape, p: nat, i: nat, v: nat, clear: bool)
    requires Graph(g) && |g.kids| == |nodes| && p < |nodes| && i < |g.kids[p]| && ChainIs(nodes, p, g.kids[p])
    requires v < |nodes| && v != p && g.owner[v].None?
    ensures g.kids[p][i] < |nodes| && (i > 0 ==> g.kids[p][i - 1] < |nodes|)
    ensures Elsewhere(nodes, Replace(nodes, p, g.kids[p][i], v, PrevOf(g.kids[p], i), clear), g, p)
  {
    GraphAt(g, p, i);
    if i > 0 { GraphAt(g, p, i - 1); }
    assert Parent(g, p);
    ReplaceEffect(nodes, p, g.kids[p][i], v, PrevOf(g.kids[p], i), clear);
    hide Replace;
    ReplaceKeeps(nodes, p, g.kids[p][i], v, PrevOf(g.kids[p], i), clear);
    hide Graph, Parent, Replace, ChainIs;
  }

  lemma ReplaceKeeps(nodes: seq<Node>, p: nat, c: nat, v: nat, prev: Option<nat>, clear: bool)
    requires p < |nodes| && c < |nodes| && v < |nodes| && (prev.Some? ==> prev.value < |nodes|)
    ensures var after := Replace(nodes, p, c, v, prev, clear);
      && (forall n :: 0 <= n < |nodes| ==> after[n].kind == nodes[n].kind && after[n].data == nodes[n].data)
      && (forall n :: 0 <= n < |nodes| && n != p ==>
            after[n].first == nodes[n].first && after[n].last == nodes[n].last && after[n].count == nodes[n].count)
  {
    hide Replace;
    var after := Replace(nodes, p, c, v, prev, clear);
    forall n | 0 <= n < |nodes|
      ensures after[n].kind == nodes[n].kind && after[n].data == nodes[n].data
      ensures n != p ==> after[n].first == nodes[n].first && after[n].last == nodes[n].last && after[n].count == nodes[n].count
    {
      ReplaceKeepsAt(nodes, p, c, v, prev, clear, n);
    }
  }

  lemma ReplaceKeepsAt(nodes: seq<Node>, p: nat, c: nat, v: nat, prev: Option<nat>, clear: bool, n: nat)
    requires p < |nodes| && c < |nodes| && v < |nodes| && (prev.Some? ==> prev.value < |nodes|) && n < |nodes|
    ensures var after := Replace(nodes, p, c, v, prev, clear);
      && after[n].kind == nodes[n].kind && after[n].data == nodes[n].data
      && (n != p ==> after[n].first == nodes[n].first && after[n].last == nodes[n].last && after[n].count == nodes[n].count)
  {
  }

  /** What replacing does to the links and to p. */
  lemma ReplaceEffect(nodes: seq<Node>, p: nat, c: nat, v: nat, prev: Option<nat>, clear: bool)
    requires p < |nodes| && c < |nodes| && v < |nodes| && (prev.Some? ==> prev.value < |nodes| && prev.value != c && prev.value != v)
    requires p != c && p != v && c != v
    ensures var after := Replace(nodes, p, c, v, prev, clear);
      && (forall n :: 0 <= n < |nodes| ==>
            after[n].next == (if n == v then nodes[c].next else if n == c && clear then NONE else if prev == Some(n) then v else nodes[n].next))
      && after[p].count == nodes[p].count
      && after[p].first == (if prev.None? then v else nodes[p].first)
      && after[p].last == (if nodes[p].last == c then v else nodes[p].last)
  {
  }

  lemma SwapOwner(g: Shape, p: nat, i: nat, v: nat)
    requires Graph(g) && p < |g.kids| && i < |g.kids[p]| && v < |g.kids| && g.kids[p][i] < |g.kids| && Graph(Detach(g, p, i))
    requires !Under(Detach(g, p, i), v, p) && Detach(g, p, i).owner[v].None?
    ensures Swap(g, p, i, v).owner == g.owner[g.kids[p][i] := None][v := Some(p)] && Graph(Swap(g, p, i, v))
  {
    hide Under, Lifted;
    AttachGraph(Detach(g, p, i), p, i, v);
  }

  lemma ReplacedChain(nodes: seq<Node>, g: Shape, p: nat, i: nat, v: nat, clear: bool)
    requires Graph(g) && |g.kids| == |nodes| && p < |nodes| && i < |g.kids[p]| && ChainIs(nodes, p, g.kids[p])
    requires v < |nodes| && v != p && g.owner[v] != Some(p)
    ensures g.kids[p][i] < |nodes| && (i > 0 ==> g.kids[p][i - 1] < |nodes|)
    ensures ChainIs(Replace(nodes, p, g.kids[p][i], v, PrevOf(g.kids[p], i), clear), p, Put(g.kids[p], i, v))
  {
    var ch, c := g.kids[p], g.kids[p][i];
    assert Parent(g, p);
    GraphAt(g, p, i);
    if i > 0 { GraphAt(g, p, i - 1); }
    assert Distinct(ch);
    ReplaceEffect(nodes, p, c, v, PrevOf(ch, i), clear);
    var after, next := Replace(nodes, p, c, v, PrevOf(ch, i), clear), Put(ch, i, v);
    forall j | 0 <= j < |ch| ensures ch[j] < |nodes| && ch[j] != v { GraphAt(g, p, j); }
    hide Replace, Graph, Parent, NextIn, Put, PrevOf;
    PutEnds(ch, i, v);
    assert LinkAt(nodes, ch, i);
    forall j | 0 <= j < |next| ensures LinkAt(after, next, j) {
      PutNext(ch, i, v, j);
      assert LinkAt(nodes, ch, j);
    }
  }

  /** The links of a sequence with element i replaced. */
  lemma PutNext(ch: seq<nat>, i: nat, v: nat, j: nat)
    requires i < |ch| && j < |ch| && Distinct(ch) && v !in ch
    ensures var next := Put(ch, i, v);
      && next[j] == (if j == i then v else ch[j]) && (j != i ==> ch[j] != ch[i])
      && NextIn(next, j) == (if j + 1 == i then v else NextIn(ch, j))
      && (PrevOf(ch, i) == Some(ch[j]) <==> j + 1 == i)
  {
  }

  lemma PutEnds(ch: seq<nat>, i: nat, v: nat)
    requires i < |ch| && Distinct(ch)
    ensures var next := Put(ch, i, v);
      && |next| == |ch| && next[0] == (if i == 0 then v else ch[0])
      && next[|next| - 1] == (if ch[|ch| - 1] == ch[i] then v else ch[|ch| - 1])
      && (PrevOf(ch, i).None? <==> i == 0)
  {
  }

  // ---- what the operations need of their caller -----------------------------------------------------

  lemma {:induction false} RankBelow(g: Shape, h: Shape, c: nat, n: nat)
    requires Graph(g) && c < |g.kids| && Under(g, c, n) && Graph(h) && |h.kids| == |g.kids|
    requires forall x, i :: 0 <= x < |g.kids| && 0 <= i < |g.kids[x]| ==> g.kids[x][i] in h.kids[x]
    ensures n < |g.kids| && h.rank[n] <= h.rank[c]
    decreases g.rank[c]
  {
    if n != c {
      var i :| 0 <= i < |g.kids[c]| && UnderKid(g, c, i, n);
      GraphAt(g, c, i);
      RankBelow(g, h, g.kids[c][i], n);
      var j :| 0 <= j < |h.kids[c]| && h.kids[c][j] == g.kids[c][i];
      GraphAt(h, c, j);
    }
  }

  /** The links in memory leave one chain for each node. */
  lemma {:induction false} ChainUnique(nodes: seq<Node>, x: nat, a: seq<nat>, b: seq<nat>)
    requires ChainIs(nodes, x, a) && ChainIs(nodes, x, b) && |nodes| < NONE
    ensures a == b
  {
    ChainPrefix(nodes, x, a, b, |a|);
  }

  lemma {:induction false} ChainPrefix(nodes: seq<Node>, x: nat, a: seq<nat>, b: seq<nat>, n: nat)
    requires ChainIs(nodes, x, a) && ChainIs(nodes, x, b) && |nodes| < NONE && n <= |a|
    ensures |a| == |b| && a[..n] == b[..n]
  {
    if n > 1 {
      ChainPrefix(nodes, x, a, b, n - 1);
      assert LinkAt(nodes, a, n - 2) && LinkAt(nodes, b, n - 2);
      assert a[..n - 1][n - 2] == a[n - 2] && b[..n - 1][n - 2] == b[n - 2];
      assert a[..n] == a[..n - 1] + [a[n - 1]] && b[..n] == b[..n - 1] + [b[n - 1]];
    }
  }

  /** The memory can be read as some forest. */
  ghost predicate IsForest(nodes: seq<Node>, att: seq<bool>, roots: seq<nat>) { exists h: Shape :: Forest(nodes, h, att, roots) }

  /** Every reading of changed memory gives the nodes elsewhere their old children. */
  lemma SameElsewhere(nodes: seq<Node>, after: seq<Node>, g: Shape, h: Shape, att: seq<bool>, roots: seq<nat>, p: nat, x: nat)
    requires Graph(g) && AllChains(nodes, g.kids) && p < |nodes| && x < |nodes| && x != p && Elsewhere(nodes, after, g, p)
    requires Forest(after, h, att, roots)
    ensures |h.kids| == |nodes| && h.kids[x] == g.kids[x]
  {
    OtherChain(nodes, after, g, p, x);
    ForestAt(after, h, att, roots, x);
    hide Graph;
    ChainUnique(after, x, g.kids[x], h.kids[x]);
  }

  /** A child in a reading: its parent is the one, it ranks below it, and it is no root. */
  lemma ChildIs(nodes: seq<Node>, h: Shape, att: seq<bool>, roots: seq<nat>, x: nat, i: nat)
    requires Forest(nodes, h, att, roots) && x < |nodes| && i < |h.kids[x]|
    ensures Graph(h) && |h.kids| == |h.owner| == |h.rank| == |nodes|
    ensures var c := h.kids[x][i]; c < |nodes| && h.owner[c] == Some(x) && h.rank[c] < h.rank[x] && c !in roots
  {
    GraphAt(h, x, i);
  }

  lemma IndexOf(s: seq<nat>, k: nat) returns (i: nat)
    requires k in s
    ensures i < |s| && s[i] == k
  {
    i :| 0 <= i < |s| && s[i] == k;
  }

  /** A node that has a parent is one of its children. */
  lemma OwnPlace(g: Shape, c: nat) returns (i: nat)
    requires Graph(g) && c < |g.kids| == |g.owner| && g.owner[c].Some?
    ensures g.owner[c].value < |g.kids| && i < |g.kids[g.owner[c].value]| && g.kids[g.owner[c].value][i] == c
  {
    assert Listed(g, c);
    i := IndexOf(g.kids[g.owner[c].value], c);
  }

  lemma EndsInNone(nodes: seq<Node>, x: nat, ch: seq<nat>)
    requires ChainIs(nodes, x, ch)
    ensures nodes[x].count > 0 ==> ch != [] && nodes[x].last < |nodes| && nodes[x].last == ch[|ch| - 1] && nodes[nodes[x].last].next == NONE
  {
    if ch != [] { assert LinkAt(nodes, ch, |ch| - 1); }
  }

  lemma LastOf(nodes: seq<Node>, g: Shape, p: nat)
    requires Graph(g) && |g.kids| == |nodes| && p < |nodes| && ChainIs(nodes, p, g.kids[p]) && nodes[p].count > 0
    ensures g.kids[p] != [] && nodes[p].last == g.kids[p][|g.kids[p]| - 1] && nodes[p].last < |nodes| && g.owner[nodes[p].last] == Some(p)
  {
    GraphAt(g, p, |g.kids[p]| - 1);
  }

  /** A child with nothing behind it is the last one. */
  lemma OnlyLastEnds(nodes: seq<Node>, g: Shape, p: nat, i: nat)
    requires Graph(g) && |g.kids| == |nodes| < NONE && p < |nodes| && ChainIs(nodes, p, g.kids[p]) && i < |g.kids[p]|
    requires g.kids[p][i] < |nodes| && nodes[g.kids[p][i]].next == NONE
    ensures nodes[p].count > 0 && nodes[p].last == g.kids[p][i]
  {
    assert LinkAt(nodes, g.kids[p], i);
    if i + 1 < |g.kids[p]| { GraphAt(g, p, i + 1); }
  }

  // ---- heights ------------------------------------------------------------------------------------

  /** The height of the tree under x. */
  ghost function HeightOf(g: Shape, x: nat): nat
    requires Graph(g) && x < |g.kids|
    decreases g.rank[x], 0, |g.kids[x]| + 1
  {
    TallestOf(g, x, |g.kids[x]|)
  }

  ghost function TallestOf(g: Shape, x: nat, i: nat): nat
    requires Graph(g) && x < |g.kids| && i <= |g.kids[x]|
    decreases g.rank[x], 0, i
  {
    if i == 0 then 0
    else
      GraphAt(g, x, i - 1);
      var h, before := HeightOf(g, g.kids[x][i - 1]) + 1, TallestOf(g, x, i - 1);
      if h > before then h else before
  }

  lemma {:induction false} KidHeight(g: Shape, x: nat, i: nat, j: nat)
    requires Graph(g) && x < |g.kids| && j < i <= |g.kids[x]|
    ensures g.kids[x][j] < |g.kids| && HeightOf(g, g.kids[x][j]) < TallestOf(g, x, i)
    decreases i
  {
    GraphAt(g, x, j);
    GraphAt(g, x, i - 1);
    if j < i - 1 { KidHeight(g, x, i - 1, j); }
  }

  // ---- one more root ------------------------------------------------------------------------------

  /** With one more root the memory is a forest exactly when the root was no root and nobody's child. */
  lemma RootExactly(nodes: seq<Node>, g: Shape, att: seq<bool>, roots: seq<nat>, x: nat)
    requires Forest(nodes, g, att, roots) && x < |nodes| == |att|
    ensures Loose(g, roots, x) ==> Forest(nodes, g, att[x := true], roots + [x])
    ensures IsForest(nodes, att[x := true], roots + [x]) <==> Loose(g, roots, x)
  {
    var att1, more := att[x := true], roots + [x];
    ForestChains(nodes, g, att, roots);
    ForestFlags(nodes, g, att, roots);
    if Loose(g, roots, x) {
      hide Forest, Graph, AllChains;
      ForestIs(nodes, g, att1, more);
    } else {
      forall h ensures !Forest(nodes, h, att1, more) {
        if Forest(nodes, h, att1, more) { RootLost(nodes, g, att, roots, x, h); }
      }
    }
  }

  lemma TwiceThere(s: seq<nat>, x: nat)
    requires x in s
    ensures !Distinct(s + [x])
  {
    var k := IndexOf(s, x);
    assert (s + [x])[k] == x && (s + [x])[|s|] == x;
  }

  lemma RootLost(nodes: seq<Node>, g: Shape, att: seq<bool>, roots: seq<nat>, x: nat, h: Shape)
    requires Forest(nodes, g, att, roots) && x < |nodes| == |att| && !Loose(g, roots, x)
    ensures !Forest(nodes, h, att[x := true], roots + [x])
  {
    if Forest(nodes, h, att[x := true], roots + [x]) {
      ForestFlags(nodes, h, att[x := true], roots + [x]);
      ForestFlags(nodes, g, att, roots);
      ForestChains(nodes, g, att, roots);
      ForestChains(nodes, h, att[x := true], roots + [x]);
      var more := roots + [x];
      assert more[|roots|] == x;
      if g.owner[x].Some? {
        var i := OwnPlace(g, x);
        var y := g.owner[x].value;
        ForestAt(nodes, g, att, roots, y);
        ForestAt(nodes, h, att[x := true], more, y);
        hide Forest, Graph;
        ChainUnique(nodes, y, g.kids[y], h.kids[y]);
        GraphAt(h, y, i);
      } else {
        TwiceThere(roots, x);
      }
    }
  }

  // ---- one link -------------------------------------------------------------------------------------

  /** What dom_link does to the links and to p. */
  lemma LinkEffect(nodes: seq<Node>, p: nat, c: nat)
    requires p < |nodes| && c < |nodes| && (nodes[p].count > 0 ==> nodes[p].last < |nodes|)
    ensures var after := Link(nodes, p, c);
      && (forall n :: 0 <= n < |nodes| ==> after[n].next == if nodes[p].count > 0 && n == nodes[p].last then c else nodes[n].next)
      && after[p].count == nodes[p].count + 1 && after[p].last == c
  {
  }

  /** What a link needs: c is no child and no root yet, not above p, and nothing hangs behind it. */
  ghost predicate JoinFits(nodes: seq<Node>, g: Shape, roots: seq<nat>, p: nat, c: nat)
    requires Graph(g) && c < |g.kids| == |nodes|
  {
    Loose(g, roots, c) && !Under(g, c, p) && nodes[c].next == NONE
  }

  /** c at the end of p's children. */
  ghost function Joined(g: Shape, p: nat, c: nat): Shape
    requires Graph(g) && p < |g.kids| && c < |g.kids|
  {
    Attach(g, p, |g.kids[p]|, c)
  }

  /** After one link the memory is a forest exactly when the child fits. */
  lemma LinkExactly(nodes: seq<Node>, g: Shape, att: seq<bool>, roots: seq<nat>, p: nat, c: nat)
    requires Forest(nodes, g, att, roots) && p < |nodes| && nodes[p].kind != Leaf && c < |nodes|
    requires Graph(g) && |g.kids| == |att| == |nodes|
    ensures nodes[p].count > 0 ==> nodes[p].last < |nodes|
    ensures JoinFits(nodes, g, roots, p, c) ==> Forest(Link(nodes, p, c), Joined(g, p, c), att[c := true], roots)
    ensures IsForest(Link(nodes, p, c), att[c := true], roots) <==> JoinFits(nodes, g, roots, p, c)
  {
    ForestAt(nodes, g, att, roots, p);
    if nodes[p].count > 0 { LastOf(nodes, g, p); }
    var after, att1 := Link(nodes, p, c), att[c := true];
    hide Under, Graph, Forest, Link;
    if JoinFits(nodes, g, roots, p, c) {
      LinkForest(nodes, g, att, roots, p, c);
    } else {
      forall h ensures !Forest(after, h, att1, roots) { LinkLost(nodes, g, att, roots, p, c, h); }
    }
  }

  /** A node linked below itself or below one of its own children closes a circle: the memory is a forest no more. */
  lemma AncestorCloses(nodes: seq<Node>, g: Shape, att: seq<bool>, roots: seq<nat>, p: nat, c: nat)
    requires Forest(nodes, g, att, roots) && p < |nodes| && nodes[p].kind != Leaf && c < |nodes|
    requires Graph(g) && |g.kids| == |att| == |nodes| && Under(g, c, p)
    ensures nodes[p].count > 0 ==> nodes[p].last < |nodes|
    ensures !IsForest(Link(nodes, p, c), att[c := true], roots)
  {
    LinkExactly(nodes, g, att, roots, p, c);
  }

  /** A node that is a child already, whatever its bit says, is lost to its chain or to the new one. */
  lemma ChildTwice(nodes: seq<Node>, g: Shape, att: seq<bool>, roots: seq<nat>, p: nat, c: nat)
    requires Forest(nodes, g, att, roots) && p < |nodes| && nodes[p].kind != Leaf && c < |nodes|
    requires Graph(g) && |g.kids| == |g.owner| == |att| == |nodes| && (g.owner[c].Some? || c in roots)
    ensures nodes[p].count > 0 ==> nodes[p].last < |nodes|
    ensures !IsForest(Link(nodes, p, c), att[c := true], roots)
  {
    LinkExactly(nodes, g, att, roots, p, c);
  }

  /** With every bit set the bits tell the nodes that are loose. */
  lemma FlagsTell(nodes: seq<Node>, g: Shape, att: seq<bool>, roots: seq<nat>, c: nat)
    requires Forest(nodes, g, att, roots) && Flagged(g, att, roots) && c < |nodes|
    ensures |att| == |nodes| && (Loose(g, roots, c) <==> !att[c])
  {
  }

  /** In any reading of the memory behind the link the child is p's last, and was nobody's. */
  lemma LinkLost(nodes: seq<Node>, g: Shape, att: seq<bool>, roots: seq<nat>, p: nat, c: nat, h: Shape)
    requires Forest(nodes, g, att, roots) && p < |nodes| && nodes[p].kind != Leaf && c < |nodes|
    requires Graph(g) && |g.kids| == |att| == |nodes| && !JoinFits(nodes, g, roots, p, c)
    ensures nodes[p].count > 0 ==> nodes[p].last < |nodes|
    ensures !Forest(Link(nodes, p, c), h, att[c := true], roots)
  {
    ForestAt(nodes, g, att, roots, p);
    if nodes[p].count > 0 { LastOf(nodes, g, p); }
    var after, att1 := Link(nodes, p, c), att[c := true];
    if Forest(after, h, att1, roots) {
      LinkEffect(nodes, p, c);
      ForestAt(after, h, att1, roots, p);
      EndsInNone(after, p, h.kids[p]);
      ChildIs(after, h, att1, roots, p, |h.kids[p]| - 1);
      ForestChains(nodes, g, att, roots);
      LinkElsewhere(nodes, g, p, c);
      hide Forest, Graph, AllChains, Elsewhere, Link, Under;
      if g.owner[c].Some? {
        OwnedElsewhere(nodes, after, g, h, att1, roots, p, c);
      } else {
        LinkAbove(nodes, g, att, roots, p, c, h);
      }
    }
  }

  /** A child of another node, or the last of p's own, is not p's child afterwards as well. */
  lemma OwnedElsewhere(nodes: seq<Node>, after: seq<Node>, g: Shape, h: Shape, att: seq<bool>, roots: seq<nat>, p: nat, c: nat)
    requires Graph(g) && AllChains(nodes, g.kids) && Elsewhere(nodes, after, g, p) && p < |nodes| && c < |nodes| < NONE
    requires |g.kids| == |g.owner| && g.owner[c].Some? && nodes[c].next == NONE && !(nodes[p].count > 0 && nodes[p].last == c)
    ensures !(Forest(after, h, att, roots) && c < |h.owner| && h.owner[c] == Some(p))
  {
    var i := OwnPlace(g, c);
    var x := g.owner[c].value;
    if x == p {
      OnlyLastEnds(nodes, g, p, i);
    } else if Forest(after, h, att, roots) {
      SameElsewhere(nodes, after, g, h, att, roots, p, x);
      ChildIs(after, h, att, roots, x, i);
    }
  }

  /** A node above p cannot be p's child: no ranks fit. */
  lemma LinkAbove(nodes: seq<Node>, g: Shape, att: seq<bool>, roots: seq<nat>, p: nat, c: nat, h: Shape)
    requires Forest(nodes, g, att, roots) && p < |nodes| && c < |nodes| && Graph(g) && |g.kids| == |g.owner| == |att| == |nodes|
    requires g.owner[c].None? && nodes[c].next == NONE && Under(g, c, p) && (nodes[p].count > 0 ==> nodes[p].last < |nodes|)
    ensures !Forest(Link(nodes, p, c), h, att[c := true], roots)
  {
    var after, att1 := Link(nodes, p, c), att[c := true];
    if Forest(after, h, att1, roots) {
      ForestAt(nodes, g, att, roots, p);
      ForestAt(after, h, att1, roots, p);
      LinkEffect(nodes, p, c);
      EndsInNone(after, p, h.kids[p]);
      ChildIs(after, h, att1, roots, p, |h.kids[p]| - 1);
      ForestChains(nodes, g, att, roots);
      LinkElsewhere(nodes, g, p, c);
      hide Forest, Graph, AllChains, Elsewhere, Link, Under;
      if c != p {
        LinkedChain(nodes, g, p, c);
        ChainUnique(after, p, h.kids[p], g.kids[p] + [c]);
        forall x, i | 0 <= x < |g.kids| && 0 <= i < |g.kids[x]| ensures g.kids[x][i] in h.kids[x] {
          if x != p { SameElsewhere(nodes, after, g, h, att1, roots, p, x); }
          else { assert h.kids[p][i] == g.kids[p][i]; }
        }
        RankBelow(g, h, c, p);
      }
    }
  }

  // ---- a key and a value at once ----------------------------------------------------------------------

  /** Two links in a row: k, then v, behind p's last child. */
  function LinkPair(nodes: seq<Node>, p: nat, k: nat, v: nat): (r: seq<Node>)
    requires p < |nodes| && k < |nodes| && v < |nodes| && (nodes[p].count > 0 ==> nodes[p].last < |nodes|)
    ensures |r| == |nodes|
  {
    Link(Link(nodes, p, k), p, v)
  }

  /** Whatever k was, it now leads to v, and the old last child to k. */
  lemma PairEffect(nodes: seq<Node>, p: nat, k: nat, v: nat)
    requires p < |nodes| && k < |nodes| && v < |nodes| && (nodes[p].count > 0 ==> nodes[p].last < |nodes|)
    ensures var after := LinkPair(nodes, p, k, v);
      && (forall n :: 0 <= n < |nodes| ==>
            after[n].next == if n == k then v else if nodes[p].count > 0 && n == nodes[p].last then k else nodes[n].next)
      && after[p].count == nodes[p].count + 2 && after[p].last == v
      && after[p].first == (if nodes[p].count == 0 then k else nodes[p].first)
  {
  }

  lemma PairElsewhere(nodes: seq<Node>, g: Shape, p: nat, k: nat, v: nat)
    requires Graph(g) && |g.kids| == |nodes| && p < |nodes| && k < |nodes| && v < |nodes| && ChainIs(nodes, p, g.kids[p])
    requires g.owner[k].None? || g.owner[k] == Some(p)
    ensures nodes[p].count > 0 ==> nodes[p].last < |nodes|
    ensures Elsewhere(nodes, LinkPair(nodes, p, k, v), g, p)
  {
    if g.kids[p] != [] { GraphAt(g, p, |g.kids[p]| - 1); }
    PairEffect(nodes, p, k, v);
    PairHeads(nodes, p, k, v);
    hide Graph, LinkPair;
  }

  lemma PairHeads(nodes: seq<Node>, p: nat, k: nat, v: nat)
    requires p < |nodes| && k < |nodes| && v < |nodes| && (nodes[p].count > 0 ==> nodes[p].last < |nodes|)
    ensures var after := LinkPair(nodes, p, k, v);
      && (forall n :: 0 <= n < |nodes| ==> after[n].kind == nodes[n].kind && after[n].data == nodes[n].data)
      && (forall n :: 0 <= n < |nodes| && n != p ==>
            after[n].first == nodes[n].first && after[n].last == nodes[n].last && after[n].count == nodes[n].count)
  {
    var one := Link(nodes, p, k);
    LinkHeads(nodes, p, k);
    LinkHeads(one, p, v);
    hide Link;
  }

  lemma LinkHeads(nodes: seq<Node>, p: nat, c: nat)
    requires p < |nodes| && c < |nodes| && (nodes[p].count > 0 ==> nodes[p].last < |nodes|)
    ensures var after := Link(nodes, p, c);
      && |after| == |nodes| && after[p].last == c
      && (forall n :: 0 <= n < |nodes| ==> after[n].kind == nodes[n].kind && after[n].data == nodes[n].data)
      && (forall n :: 0 <= n < |nodes| && n != p ==>
            after[n].first == nodes[n].first && after[n].last == nodes[n].last && after[n].count == nodes[n].count)
  {
  }

  /** k and v join p's chain: k may have hung in front of anything, v of nothing. */
  lemma PairChain(nodes: seq<Node>, g: Shape, p: nat, k: nat, v: nat)
    requires Graph(g) && |g.kids| == |nodes| && p < |nodes| && ChainIs(nodes, p, g.kids[p])
    requires k < |nodes| && v < |nodes| && k != v && g.owner[k] != Some(p) && g.owner[v] != Some(p) && nodes[v].next == NONE
    ensures nodes[p].count > 0 ==> nodes[p].last < |nodes|
    ensures ChainIs(LinkPair(nodes, p, k, v), p, g.kids[p] + [k, v])
  {
    var ch := g.kids[p];
    ParentOf(g, p);
    if ch != [] { GraphAt(g, p, |ch| - 1); }
    PairEffect(nodes, p, k, v);
    var after, next := LinkPair(nodes, p, k, v), ch + [k, v];
    hide LinkPair, Graph, NextIn;
    forall i | 0 <= i < |next| ensures LinkAt(after, next, i) {
      if i < |ch| {
        assert LinkAt(nodes, ch, i);
        GraphAt(g, p, i);
      }
      PairNext(ch, k, v, i);
    }
  }

  lemma ParentOf(g: Shape, p: nat)
    requires Graph(g) && p < |g.kids|
    ensures Distinct(g.kids[p])
  {
    assert Parent(g, p);
  }

  lemma PairNext(ch: seq<nat>, k: nat, v: nat, i: nat)
    requires i < |ch| + 2 && Distinct(ch)
    ensures var next := ch + [k, v];
      && NextIn(next, i) == (if i + 1 < |ch| then NextIn(ch, i) else if i + 1 == |ch| then k else if i == |ch| then v else NONE)
      && next[i] == (if i < |ch| then ch[i] else if i == |ch| then k else v)
      && (i < |ch| ==> (ch[i] == ch[|ch| - 1] <==> i + 1 == |ch|))
  {
  }

  /** What a pair needs: both are no child and no root yet, differ, are not above the mapping, and behind the value hangs nothing. */
  ghost predicate PairFits(nodes: seq<Node>, g: Shape, roots: seq<nat>, p: nat, k: nat, v: nat)
    requires Graph(g) && k < |g.kids| == |nodes| && v < |nodes|
  {
    Loose(g, roots, k) && k != v && !Under(g, k, p) && JoinFits(nodes, g, roots, p, v)
  }

  /** k and v at the end of p's children. */
  ghost function Paired(g: Shape, p: nat, k: nat, v: nat): Shape
    requires Graph(g) && p < |g.kids| && k < |g.kids| && v < |g.kids| && Graph(Attach(g, p, |g.kids[p]|, k))
  {
    Attach(Attach(g, p, |g.kids[p]|, k), p, |g.kids[p]| + 1, v)
  }

  lemma PairForest(nodes: seq<Node>, g: Shape, att: seq<bool>, roots: seq<nat>, p: nat, k: nat, v: nat)
    requires Forest(nodes, g, att, roots) && p < |nodes| && nodes[p].kind != Leaf && k < |nodes| && v < |nodes| && Graph(g) && |g.kids| == |nodes| && PairFits(nodes, g, roots, p, k, v)
    ensures nodes[p].count > 0 ==> nodes[p].last < |nodes|
    ensures Graph(Attach(g, p, |g.kids[p]|, k))
    ensures Forest(LinkPair(nodes, p, k, v), Paired(g, p, k, v), att[k := true][v := true], roots)
    ensures Paired(g, p, k, v).kids == g.kids[p := g.kids[p] + [k, v]]
  {
    ForestAt(nodes, g, att, roots, p);
    SelfUnder(g, v, p);
    ForestChains(nodes, g, att, roots);
    ForestFlags(nodes, g, att, roots);
    PairChain(nodes, g, p, k, v);
    PairElsewhere(nodes, g, p, k, v);
    PairShape(g, p, k, v);
    hide Under, Lifted, Graph, Forest, AllChains, Elsewhere, Flags, ChainIs, LinkPair, Attach;
    var after, h := LinkPair(nodes, p, k, v), Attach(Attach(g, p, |g.kids[p]|, k), p, |g.kids[p]| + 1, v);
    OthersKept(nodes, after, g, p, g.kids[p] + [k, v]);
    FlagAttached(g.owner, att, roots, k, p);
    FlagAttached(g.owner[k := Some(p)], att[k := true], roots, v, p);
    ForestIs(after, h, att[k := true][v := true], roots);
  }

  lemma PairShape(g: Shape, p: nat, k: nat, v: nat)
    requires Graph(g) && p < |g.kids| && k < |g.kids| && v < |g.kids| && k != v && g.owner[k].None? && g.owner[v].None?
    requires !Under(g, k, p) && !Under(g, v, p)
    ensures Graph(Attach(g, p, |g.kids[p]|, k))
    ensures var h := Attach(Attach(g, p, |g.kids[p]|, k), p, |g.kids[p]| + 1, v);
      Graph(h) && h.kids == g.kids[p := g.kids[p] + [k, v]] && h.owner == g.owner[k := Some(p)][v := Some(p)]
  {
    AttachGraph(g, p, |g.kids[p]|, k);
    var one := Attach(g, p, |g.kids[p]|, k);
    if Under(one, v, p) { UnderAttach(g, p, k, v); }
    hide Under, Lifted, Graph;
    assert one.kids[p] == g.kids[p] + [k];
    AttachGraph(one, p, |g.kids[p]| + 1, v);
    assert one.kids[p][..|g.kids[p]| + 1] + [v] + one.kids[p][|g.kids[p]| + 1..] == g.kids[p] + [k, v];
  }

  /** Attaching k below p puts nothing new above p. */
  lemma {:induction false} UnderAttach(g: Shape, p: nat, k: nat, c: nat)
    requires Graph(g) && p < |g.kids| && k < |g.kids| && c < |g.kids| && Graph(Attach(g, p, |g.kids[p]|, k))
    requires Under(Attach(g, p, |g.kids[p]|, k), c, p)
    ensures Under(g, c, p)
    decreases Attach(g, p, |g.kids[p]|, k).rank[c]
  {
    var h := Attach(g, p, |g.kids[p]|, k);
    if c != p {
      var i :| 0 <= i < |h.kids[c]| && UnderKid(h, c, i, p);
      GraphAt(h, c, i);
      UnderAttach(g, p, k, h.kids[c][i]);
      assert UnderKid(g, c, i, p);
    }
  }

  // ---- where the pair is lost -----------------------------------------------------------------------------

  /** Up to the key a chain of another node reads as before. */
  lemma {:induction false} SamePrefix(nodes: seq<Node>, after: seq<Node>, x: nat, ch: seq<nat>, now: seq<nat>, n: nat)
    requires ChainIs(nodes, x, ch) && ChainIs(after, x, now) && |nodes| == |after| < NONE && n < |ch| <= |now|
    requires after[x].first == nodes[x].first && forall j :: 0 <= j < n ==> ch[j] < |nodes| && after[ch[j]].next == nodes[ch[j]].next
    ensures now[n] == ch[n]
  {
    if n > 0 {
      SamePrefix(nodes, after, x, ch, now, n - 1);
      assert LinkAt(nodes, ch, n - 1) && LinkAt(after, now, n - 1);
    }
  }

  /** A pair whose value has nothing behind it and is no child of p. */
  predicate PairCase(nodes: seq<Node>, g: Shape, att: seq<bool>, roots: seq<nat>, p: nat, k: nat, v: nat) {
    && Forest(nodes, g, att, roots) && p < |nodes| && nodes[p].kind != Leaf && k < |nodes| && v < |nodes| && k != v
    && g.owner[v] != Some(p) && nodes[v].next == NONE && (nodes[p].count > 0 ==> nodes[p].last < |nodes|)
  }

  lemma PairOf(nodes: seq<Node>, g: Shape, att: seq<bool>, roots: seq<nat>, p: nat, k: nat, v: nat)
    requires PairCase(nodes, g, att, roots, p, k, v)
    ensures Graph(g) && |g.kids| == |g.owner| == |nodes| == |att| < NONE && ChainIs(nodes, p, g.kids[p]) && AllChains(nodes, g.kids)
    ensures g.owner[v] != Some(p) && (nodes[p].count > 0 ==> nodes[p].last < |nodes|)
  {
    ForestAt(nodes, g, att, roots, p);
    ForestChains(nodes, g, att, roots);
  }

  /** A key from outside p's chain is p's child afterwards, and so is the value, in every reading. */
  lemma PairJoins(nodes: seq<Node>, g: Shape, att: seq<bool>, roots: seq<nat>, p: nat, k: nat, v: nat, h: Shape, att1: seq<bool>)
    requires PairCase(nodes, g, att, roots, p, k, v) && |g.owner| == |nodes| && g.owner[k] != Some(p)
    requires Forest(LinkPair(nodes, p, k, v), h, att1, roots)
    ensures Graph(h) && |h.kids| == |h.owner| == |h.rank| == |nodes| == |g.kids| && h.kids[p] == g.kids[p] + [k, v]
    ensures h.owner[k] == Some(p) && h.rank[k] < h.rank[p] && k !in roots
    ensures h.owner[v] == Some(p) && h.rank[v] < h.rank[p] && v !in roots
  {
    PairOf(nodes, g, att, roots, p, k, v);
    PairChain(nodes, g, p, k, v);
    ForestAt(LinkPair(nodes, p, k, v), h, att1, roots, p);
    hide LinkPair;
    ChainUnique(LinkPair(nodes, p, k, v), p, h.kids[p], g.kids[p] + [k, v]);
    assert h.kids[p][|g.kids[p]|] == k && h.kids[p][|g.kids[p]| + 1] == v;
    ChildIs(LinkPair(nodes, p, k, v), h, att1, roots, p, |g.kids[p]|);
    ChildIs(LinkPair(nodes, p, k, v), h, att1, roots, p, |g.kids[p]| + 1);
  }

  /** In the chain it was in, the key is still found where it was. */
  lemma KeyStays(nodes: seq<Node>, g: Shape, att: seq<bool>, roots: seq<nat>, p: nat, k: nat, v: nat, h: Shape, att1: seq<bool>, x: nat, i: nat)
    requires PairCase(nodes, g, att, roots, p, k, v) && |g.kids| == |nodes| && x < |nodes| && i < |g.kids[x]| && g.kids[x][i] == k
    requires Forest(LinkPair(nodes, p, k, v), h, att1, roots)
    ensures |h.kids| == |nodes| && |h.kids[x]| == |g.kids[x]| + (if x == p then 2 else 0) && h.kids[x][i] == k
    ensures Graph(h) && ChildOf(h, x, k) && ChainIs(LinkPair(nodes, p, k, v), x, h.kids[x])
  {
    PairOf(nodes, g, att, roots, p, k, v);
    var after, ch := LinkPair(nodes, p, k, v), g.kids[x];
    PairEffect(nodes, p, k, v);
    PairHeads(nodes, p, k, v);
    ForestAt(nodes, g, att, roots, x);
    ForestAt(after, h, att1, roots, x);
    ForestChains(after, h, att1, roots);
    ParentOf(g, x);
    ParentOf(g, p);
    hide Forest, LinkPair, Graph, AllChains, NextIn;
    KeepsCount(nodes, after, x, p, ch, h.kids[x]);
    forall j | 0 <= j < i ensures ch[j] < |nodes| && after[ch[j]].next == nodes[ch[j]].next {
      GraphAt(g, x, j);
      if nodes[p].count > 0 { LastOf(nodes, g, p); }
    }
    SamePrefix(nodes, after, x, ch, h.kids[x], i);
    GraphAt(h, x, i);
  }

  lemma KeepsCount(nodes: seq<Node>, after: seq<Node>, x: nat, p: nat, ch: seq<nat>, now: seq<nat>)
    requires ChainIs(nodes, x, ch) && ChainIs(after, x, now) && |after| == |nodes| && p < |nodes|
    requires after[x].count == nodes[x].count + if x == p then 2 else 0
    ensures |now| == |ch| + if x == p then 2 else 0
  {
  }

  /** Behind the key comes the value, and behind the value nothing: the chain would end too soon. */
  lemma KeyInOwnChain(nodes: seq<Node>, g: Shape, att: seq<bool>, roots: seq<nat>, p: nat, k: nat, v: nat, h: Shape, att1: seq<bool>)
    requires PairCase(nodes, g, att, roots, p, k, v) && |g.owner| == |nodes| && g.owner[k] == Some(p)
    ensures !Forest(LinkPair(nodes, p, k, v), h, att1, roots)
  {
    if Forest(LinkPair(nodes, p, k, v), h, att1, roots) {
      PairOf(nodes, g, att, roots, p, k, v);
      var i := OwnPlace(g, k);
      KeyStays(nodes, g, att, roots, p, k, v, h, att1, p, i);
      PairEffect(nodes, p, k, v);
      if nodes[p].count > 0 { LastOf(nodes, g, p); }
      hide Forest, Graph, LinkPair;
      TooShort(LinkPair(nodes, p, k, v), p, h.kids[p], i, v);
    }
  }

  lemma TooShort(nodes: seq<Node>, p: nat, ch: seq<nat>, i: nat, v: nat)
    requires ChainIs(nodes, p, ch) && i + 1 < |ch| && ch[i] < |nodes| && nodes[ch[i]].next == v && v < |nodes| && nodes[v].next == NONE && |nodes| < NONE
    ensures i + 2 == |ch|
  {
    assert LinkAt(nodes, ch, i) && LinkAt(nodes, ch, i + 1);
    if i + 2 < |ch| { InsideAt(nodes, p, ch, i + 2); }
  }

  lemma InsideAt(nodes: seq<Node>, p: nat, ch: seq<nat>, i: nat)
    requires ChainIs(nodes, p, ch) && i < |ch|
    ensures ch[i] < |nodes|
  {
    assert LinkAt(nodes, ch, i);
  }

  /** The key hung elsewhere: it would have two parents. */
  lemma KeyOfAnother(nodes: seq<Node>, g: Shape, att: seq<bool>, roots: seq<nat>, p: nat, k: nat, v: nat, h: Shape, att1: seq<bool>)
    requires PairCase(nodes, g, att, roots, p, k, v) && |g.owner| == |nodes| && g.owner[k].Some? && g.owner[k] != Some(p)
    ensures !Forest(LinkPair(nodes, p, k, v), h, att1, roots)
  {
    if Forest(LinkPair(nodes, p, k, v), h, att1, roots) {
      PairOf(nodes, g, att, roots, p, k, v);
      var i := OwnPlace(g, k);
      PairJoins(nodes, g, att, roots, p, k, v, h, att1);
      KeyStays(nodes, g, att, roots, p, k, v, h, att1, g.owner[k].value, i);
    }
  }

  /** The key was nobody's child: then the value was not either, and neither is a root or above the mapping. */
  lemma LooseKey(nodes: seq<Node>, g: Shape, att: seq<bool>, roots: seq<nat>, p: nat, k: nat, v: nat, h: Shape, att1: seq<bool>)
    requires PairCase(nodes, g, att, roots, p, k, v) && Graph(g) && |g.kids| == |g.owner| == |nodes| && g.owner[k].None?
    requires !PairFits(nodes, g, roots, p, k, v)
    ensures !Forest(LinkPair(nodes, p, k, v), h, att1, roots)
  {
    var after := LinkPair(nodes, p, k, v);
    if Forest(after, h, att1, roots) {
      PairOf(nodes, g, att, roots, p, k, v);
      PairJoins(nodes, g, att, roots, p, k, v, h, att1);
      PairElsewhere(nodes, g, p, k, v);
      hide Under, Graph, LinkPair, Forest, AllChains, Elsewhere;
      if g.owner[v].Some? {
        var i := OwnPlace(g, v);
        SameElsewhere(nodes, after, g, h, att1, roots, p, g.owner[v].value);
        ChildIs(after, h, att1, roots, g.owner[v].value, i);
      } else {
        forall x, i | 0 <= x < |g.kids| && 0 <= i < |g.kids[x]| ensures g.kids[x][i] in h.kids[x] {
          if x != p { SameElsewhere(nodes, after, g, h, att1, roots, p, x); }
          else { assert h.kids[p][i] == g.kids[p][i]; }
        }
        if Under(g, k, p) { RankBelow(g, h, k, p); }
        if Under(g, v, p) { RankBelow(g, h, v, p); }
      }
    }
  }

  /** After a key and a value were linked into a mapping the memory is a forest exactly when the pair fits. */
  lemma PairExactly(nodes: seq<Node>, g: Shape, att: seq<bool>, roots: seq<nat>, p: nat, k: nat, v: nat)
    requires Forest(nodes, g, att, roots) && p < |nodes| && nodes[p].kind != Leaf && k < |nodes| && v < |nodes|
    requires Graph(g) && |g.kids| == |att| == |nodes|
    ensures nodes[p].count > 0 ==> nodes[p].last < |nodes|
    ensures IsForest(LinkPair(nodes, p, k, v), att[k := true][v := true], roots) <==> PairFits(nodes, g, roots, p, k, v)
  {
    ForestAt(nodes, g, att, roots, p);
    if nodes[p].count > 0 { LastOf(nodes, g, p); }
    var att1 := att[k := true][v := true];
    hide Under, Forest;
    if PairFits(nodes, g, roots, p, k, v) {
      PairForest(nodes, g, att, roots, p, k, v);
    } else {
      forall h ensures !Forest(LinkPair(nodes, p, k, v), h, att1, roots) { PairLost(nodes, g, att, roots, p, k, v, h, att1); }
    }
  }

  lemma PairLost(nodes: seq<Node>, g: Shape, att: seq<bool>, roots: seq<nat>, p: nat, k: nat, v: nat, h: Shape, att1: seq<bool>)
    requires Forest(nodes, g, att, roots) && p < |nodes| && nodes[p].kind != Leaf && k < |nodes| && v < |nodes|
    requires Graph(g) && |g.kids| == |att| == |nodes| && !PairFits(nodes, g, roots, p, k, v)
    ensures nodes[p].count > 0 ==> nodes[p].last < |nodes|
    ensures !Forest(LinkPair(nodes, p, k, v), h, att1, roots)
  {
    ForestAt(nodes, g, att, roots, p);
    if nodes[p].count > 0 { LastOf(nodes, g, p); }
    var after := LinkPair(nodes, p, k, v);
    if Forest(after, h, att1, roots) {
      ForestAt(after, h, att1, roots, p);
      PairEffect(nodes, p, k, v);
      EndsInNone(after, p, h.kids[p]);
      hide Under, LinkPair, Forest;
      assert k != v && nodes[v].next == NONE;
      if g.owner[v] == Some(p) {
        var i := OwnPlace(g, v);
        OnlyLastEnds(nodes, g, p, i);
      } else {
        PairSplit(nodes, g, att, roots, p, k, v, h, att1);
      }
    }
  }

  lemma PairSplit(nodes: seq<Node>, g: Shape, att: seq<bool>, roots: seq<nat>, p: nat, k: nat, v: nat, h: Shape, att1: seq<bool>)
    requires PairCase(nodes, g, att, roots, p, k, v) && Graph(g) && |g.kids| == |g.owner| == |nodes| && !PairFits(nodes, g, roots, p, k, v)
    ensures !Forest(LinkPair(nodes, p, k, v), h, att1, roots)
  {
    if g.owner[k].None? { LooseKey(nodes, g, att, roots, p, k, v, h, att1); }
    else if g.owner[k] == Some(p) { KeyInOwnChain(nodes, g, att, roots, p, k, v, h, att1); }
    else { KeyOfAnother(nodes, g, att, roots, p, k, v, h, att1); }
  }

  // ---- one child in another's place ---------------------------------------------------------------------------

  /** What a splice needs: the new child is loose and not above p, or it is the old one and stays at the end. */
  ghost predicate SpliceFits(g: Shape, roots: seq<nat>, p: nat, i: nat, v: nat, clear: bool)
    requires Graph(g) && p < |g.kids| && i < |g.kids[p]| && v < |g.kids|
  {
    if v == g.kids[p][i] then clear ==> i + 1 == |g.kids[p]| else Loose(g, roots, v) && !Under(g, v, p)
  }

  /** What the writes of a splice leave in the links and in p, whichever of the nodes coincide. */
  lemma SpliceEffect(nodes: seq<Node>, p: nat, c: nat, v: nat, prev: Option<nat>, clear: bool)
    requires p < |nodes| && c < |nodes| && v < |nodes| && (prev.Some? ==> prev.value < |nodes| && prev.value != c)
    ensures var after := Replace(nodes, p, c, v, prev, clear);
      && (forall n :: 0 <= n < |nodes| ==>
            after[n].next == (if n == c && clear then NONE else if prev == Some(n) && !(clear && n == v) then v
                              else if n == v then nodes[c].next else nodes[n].next))
      && after[p].count == nodes[p].count
      && after[p].first == (if prev.None? then v else nodes[p].first)
      && after[p].last == (if nodes[p].last == c then v else nodes[p].last)
  {
  }

  lemma SpliceElsewhere(nodes: seq<Node>, g: Shape, p: nat, i: nat, v: nat, clear: bool)
    requires Graph(g) && |g.kids| == |g.owner| == |nodes| && p < |nodes| && i < |g.kids[p]| && ChainIs(nodes, p, g.kids[p])
    requires v < |nodes| && (g.owner[v].None? || g.owner[v] == Some(p))
    ensures g.kids[p][i] < |nodes| && (i > 0 ==> g.kids[p][i - 1] < |nodes|)
    ensures Elsewhere(nodes, Replace(nodes, p, g.kids[p][i], v, PrevOf(g.kids[p], i), clear), g, p)
  {
    GraphAt(g, p, i);
    if i > 0 { GraphAt(g, p, i - 1); }
    ParentOf(g, p);
    SpliceEffect(nodes, p, g.kids[p][i], v, PrevOf(g.kids[p], i), clear);
    ReplaceKeeps(nodes, p, g.kids[p][i], v, PrevOf(g.kids[p], i), clear);
    hide Graph, Parent, Replace, ChainIs;
  }

  /** After a splice the memory is a forest exactly when the new child fits. */
  lemma SpliceExactly(nodes: seq<Node>, g: Shape, att: seq<bool>, roots: seq<nat>, p: nat, i: nat, v: nat, clear: bool)
    requires Forest(nodes, g, att, roots) && p < |nodes| && v < |nodes| && Graph(g) && |g.kids| == |att| == |nodes| && i < |g.kids[p]|
    ensures g.kids[p][i] < |nodes| && (i > 0 ==> g.kids[p][i - 1] < |nodes|)
    ensures IsForest(Replace(nodes, p, g.kids[p][i], v, PrevOf(g.kids[p], i), clear), att[g.kids[p][i] := false][v := true], roots)
       <==> SpliceFits(g, roots, p, i, v, clear)
  {
    GraphAt(g, p, i);
    if i > 0 { GraphAt(g, p, i - 1); }
    var c := g.kids[p][i];
    var after, att1 := Replace(nodes, p, c, v, PrevOf(g.kids[p], i), clear), att[c := false][v := true];
    hide Under, Forest, Replace;
    if SpliceFits(g, roots, p, i, v, clear) {
      if v == c { SameChild(nodes, g, att, roots, p, i, clear); } else { ReplaceForest(nodes, g, att, roots, p, i, v, clear); }
    } else {
      forall h ensures !Forest(after, h, att1, roots) { SpliceLost(nodes, g, att, roots, p, i, v, clear, h); }
    }
  }

  /** The old child in its own place changes nothing, unless its link is cleared and something hangs behind it. */
  lemma SameChild(nodes: seq<Node>, g: Shape, att: seq<bool>, roots: seq<nat>, p: nat, i: nat, clear: bool)
    requires Forest(nodes, g, att, roots) && p < |nodes| && Graph(g) && |g.kids| == |att| == |nodes| && i < |g.kids[p]|
    requires clear ==> i + 1 == |g.kids[p]|
    ensures g.kids[p][i] < |nodes| && (i > 0 ==> g.kids[p][i - 1] < |nodes|)
    ensures var c := g.kids[p][i];
      && Replace(nodes, p, c, c, PrevOf(g.kids[p], i), clear) == nodes && Forest(nodes, g, att[c := false][c := true], roots)
  {
    var ch, c := g.kids[p], g.kids[p][i];
    GraphAt(g, p, i);
    ForestAt(nodes, g, att, roots, p);
    assert LinkAt(nodes, ch, i);
    if i > 0 {
      GraphAt(g, p, i - 1);
      assert LinkAt(nodes, ch, i - 1);
    }
    var after := Replace(nodes, p, c, c, PrevOf(ch, i), clear);
    forall n | 0 <= n < |nodes| ensures after[n] == nodes[n] {}
    ForestChains(nodes, g, att, roots);
    ForestFlags(nodes, g, att, roots);
    hide Forest;
    ForestIs(nodes, g, att[c := false][c := true], roots);
  }

  lemma SpliceLost(nodes: seq<Node>, g: Shape, att: seq<bool>, roots: seq<nat>, p: nat, i: nat, v: nat, clear: bool, h: Shape)
    requires Forest(nodes, g, att, roots) && p < |nodes| && v < |nodes| && Graph(g) && |g.kids| == |g.owner| == |att| == |nodes| && i < |g.kids[p]|
    requires !SpliceFits(g, roots, p, i, v, clear)
    ensures g.kids[p][i] < |nodes| && (i > 0 ==> g.kids[p][i - 1] < |nodes|)
    ensures !Forest(Replace(nodes, p, g.kids[p][i], v, PrevOf(g.kids[p], i), clear), h, att[g.kids[p][i] := false][v := true], roots)
  {
    GraphAt(g, p, i);
    if i > 0 { GraphAt(g, p, i - 1); }
    ForestAt(nodes, g, att, roots, p);
    ForestChains(nodes, g, att, roots);
    var c := g.kids[p][i];
    var after, att1 := Replace(nodes, p, c, v, PrevOf(g.kids[p], i), clear), att[c := false][v := true];
    hide Under, Forest, Replace, AllChains, Graph;
    if v == c { CutShort(nodes, g, p, i, h, att1, roots); }
    else if g.owner[v] == Some(p) { TooFew(nodes, g, p, i, v, clear, h, att1, roots); }
    else { SplicedIn(nodes, g, att, roots, p, i, v, clear, h); }
  }

  /** A cleared link in the middle ends the chain before its count. */
  lemma CutShort(nodes: seq<Node>, g: Shape, p: nat, i: nat, h: Shape, att: seq<bool>, roots: seq<nat>)
    requires Graph(g) && |g.kids| == |nodes| < NONE && p < |nodes| && ChainIs(nodes, p, g.kids[p]) && i + 1 < |g.kids[p]|
    ensures g.kids[p][i] < |nodes| && (i > 0 ==> g.kids[p][i - 1] < |nodes|)
    ensures !Forest(Replace(nodes, p, g.kids[p][i], g.kids[p][i], PrevOf(g.kids[p], i), true), h, att, roots)
  {
    var ch, c := g.kids[p], g.kids[p][i];
    GraphAt(g, p, i);
    if i > 0 { GraphAt(g, p, i - 1); }
    ParentOf(g, p);
    var after := Replace(nodes, p, c, c, PrevOf(ch, i), true);
    if Forest(after, h, att, roots) {
      SpliceEffect(nodes, p, c, c, PrevOf(ch, i), true);
      ForestAt(after, h, att, roots, p);
      hide Replace, Graph, Forest;
      var now := h.kids[p];
      forall j | 0 <= j < i ensures ch[j] < |nodes| && after[ch[j]].next == nodes[ch[j]].next {
        assert LinkAt(nodes, ch, j);
      }
      SamePrefix(nodes, after, p, ch, now, i);
      assert LinkAt(after, now, i);
      InsideAt(after, p, now, i + 1);
    }
  }

  /** The children but one. */
  function Others(ch: seq<nat>, i: nat): set<nat>
    requires i < |ch|
  {
    set j | 0 <= j < |ch| && j != i :: ch[j]
  }

  lemma {:induction false} FewOthers(ch: seq<nat>, i: nat)
    requires i < |ch|
    ensures |Others(ch, i)| < |ch|
    decreases |ch|
  {
    if i + 1 < |ch| {
      var cut := ch[..|ch| - 1];
      FewOthers(cut, i);
      assert Others(ch, i) == Others(cut, i) + {ch[|ch| - 1]};
    } else {
      FewElements(ch[..i]);
      assert Others(ch, i) == Elements(ch[..i]);
    }
  }

  function Elements(s: seq<nat>): set<nat> { set i | 0 <= i < |s| :: s[i] }

  lemma {:induction false} FewElements(s: seq<nat>)
    ensures |Elements(s)| <= |s|
    decreases |s|
  {
    if s != [] {
      FewElements(s[..|s| - 1]);
      assert Elements(s) == Elements(s[..|s| - 1]) + {s[|s| - 1]};
    }
  }

  lemma {:induction false} DistinctFit(s: seq<nat>, all: set<nat>)
    requires Distinct(s) && forall i :: 0 <= i < |s| ==> s[i] in all
    ensures |s| <= |all|
    decreases |s|
  {
    if s != [] { DistinctFit(s[..|s| - 1], all - {s[|s| - 1]}); }
  }

  /** One child in the place of another: the chain has too few nodes for its count. */
  lemma TooFew(nodes: seq<Node>, g: Shape, p: nat, i: nat, v: nat, clear: bool, h: Shape, att: seq<bool>, roots: seq<nat>)
    requires Graph(g) && |g.kids| == |g.owner| == |nodes| < NONE && p < |nodes| && ChainIs(nodes, p, g.kids[p]) && i < |g.kids[p]|
    requires v < |nodes| && v != g.kids[p][i] && g.owner[v] == Some(p)
    ensures g.kids[p][i] < |nodes| && (i > 0 ==> g.kids[p][i - 1] < |nodes|)
    ensures !Forest(Replace(nodes, p, g.kids[p][i], v, PrevOf(g.kids[p], i), clear), h, att, roots)
  {
    var ch, c := g.kids[p], g.kids[p][i];
    GraphAt(g, p, i);
    if i > 0 { GraphAt(g, p, i - 1); }
    var after := Replace(nodes, p, c, v, PrevOf(ch, i), clear);
    if Forest(after, h, att, roots) {
      ParentOf(g, p);
      SpliceEffect(nodes, p, c, v, PrevOf(ch, i), clear);
      ForestAt(after, h, att, roots, p);
      ForestChains(after, h, att, roots);
      ParentOf(h, p);
      var j := OwnPlace(g, v);
      hide Replace, Graph, Forest, AllChains;
      var now := h.kids[p];
      ReplacedCount(nodes, after, p, ch, now);
      forall n | 0 <= n < |now| ensures now[n] in Others(ch, i) { StaysAmong(nodes, after, p, ch, i, j, clear, now, n); }
      DistinctFit(now, Others(ch, i));
      FewOthers(ch, i);
    }
  }

  lemma ReplacedCount(nodes: seq<Node>, after: seq<Node>, p: nat, ch: seq<nat>, now: seq<nat>)
    requires ChainIs(nodes, p, ch) && ChainIs(after, p, now) && after[p].count == nodes[p].count
    ensures |now| == |ch|
  {
  }

  /** Following the links one stays among the children other than the replaced one. */
  lemma {:induction false} StaysAmong(nodes: seq<Node>, after: seq<Node>, p: nat, ch: seq<nat>, i: nat, j: nat, clear: bool, now: seq<nat>, n: nat)
    requires ChainIs(nodes, p, ch) && Distinct(ch) && i < |ch| && j < |ch| && i != j && |after| == |nodes| < NONE && ChainIs(after, p, now) && n < |now|
    requires ch[i] < |nodes|
    requires forall x :: 0 <= x < |nodes| ==>
      after[x].next == (if x == ch[i] && clear then NONE else if PrevOf(ch, i) == Some(x) && !(clear && x == ch[j]) then ch[j]
                        else if x == ch[j] then nodes[ch[i]].next else nodes[x].next)
    requires after[p].first == if i == 0 then ch[j] else nodes[p].first
    ensures now[n] in Others(ch, i)
    decreases n
  {
    if n == 0 {
      if i > 0 { assert ch[0] in Others(ch, i); }
      assert ch[j] in Others(ch, i);
    } else {
      StaysAmong(nodes, after, p, ch, i, j, clear, now, n - 1);
      assert LinkAt(after, now, n - 1);
      InsideAt(after, p, now, n);
      var k :| 0 <= k < |ch| && k != i && ch[k] == now[n - 1];
      assert LinkAt(nodes, ch, k) && LinkAt(nodes, ch, i);
      assert ch[j] in Others(ch, i);
      if k == j { if i + 1 < |ch| { assert ch[i + 1] in Others(ch, i); } }
      else if k + 1 < |ch| && k + 1 != i { assert ch[k + 1] in Others(ch, i); }
    }
  }

  /** From outside p's chain the new child is p's child afterwards, in every reading. */
  lemma SplicedIn(nodes: seq<Node>, g: Shape, att: seq<bool>, roots: seq<nat>, p: nat, i: nat, v: nat, clear: bool, h: Shape)
    requires Forest(nodes, g, att, roots) && p < |nodes| && v < |nodes| && Graph(g) && |g.kids| == |g.owner| == |att| == |nodes| && i < |g.kids[p]|
    requires !SpliceFits(g, roots, p, i, v, clear) && v != g.kids[p][i] && g.owner[v] != Some(p)
    ensures g.kids[p][i] < |nodes| && (i > 0 ==> g.kids[p][i - 1] < |nodes|)
    ensures !Forest(Replace(nodes, p, g.kids[p][i], v, PrevOf(g.kids[p], i), clear), h, att[g.kids[p][i] := false][v := true], roots)
  {
    GraphAt(g, p, i);
    if i > 0 { GraphAt(g, p, i - 1); }
    ForestAt(nodes, g, att, roots, p);
    ForestChains(nodes, g, att, roots);
    var c := g.kids[p][i];
    var after, att1 := Replace(nodes, p, c, v, PrevOf(g.kids[p], i), clear), att[c := false][v := true];
    if Forest(after, h, att1, roots) {
      hide Under, Replace, AllChains, Graph;
      NewChild(nodes, g, p, i, v, clear, h, att1, roots);
      hide Forest;
      if g.owner[v].Some? {
        var j := OwnPlace(g, v);
        StillThere(nodes, g, p, i, v, clear, h, att1, roots, g.owner[v].value, j);
      } else if v != p {
        SplicedAbove(nodes, g, p, i, v, clear, h, att1, roots);
      }
    }
  }

  lemma NewChild(nodes: seq<Node>, g: Shape, p: nat, i: nat, v: nat, clear: bool, h: Shape, att: seq<bool>, roots: seq<nat>)
    requires Graph(g) && |g.kids| == |g.owner| == |nodes| < NONE && p < |nodes| && v < |nodes| && i < |g.kids[p]| && ChainIs(nodes, p, g.kids[p])
    requires v != g.kids[p][i] && g.owner[v] != Some(p) && g.kids[p][i] < |nodes| && (i > 0 ==> g.kids[p][i - 1] < |nodes|)
    requires Forest(Replace(nodes, p, g.kids[p][i], v, PrevOf(g.kids[p], i), clear), h, att, roots)
    ensures |h.kids| == |h.owner| == |h.rank| == |nodes| && h.owner[v] == Some(p) && h.rank[v] < h.rank[p] && v !in roots
  {
    var ch, c := g.kids[p], g.kids[p][i];
    var after := Replace(nodes, p, c, v, PrevOf(ch, i), clear);
    ForestAt(after, h, att, roots, p);
    ForestChains(after, h, att, roots);
    hide Replace, Forest, Graph, ChainIs;
    SplicePlace(nodes, g, p, i, v, clear, h.kids[p]);
    ChildIs(after, h, att, roots, p, i);
  }

  /** The new child stands in the old one's place. */
  lemma SplicePlace(nodes: seq<Node>, g: Shape, p: nat, i: nat, v: nat, clear: bool, now: seq<nat>)
    requires Graph(g) && |g.kids| == |g.owner| == |nodes| < NONE && p < |nodes| && v < |nodes| && i < |g.kids[p]| && ChainIs(nodes, p, g.kids[p])
    requires v != g.kids[p][i] && g.owner[v] != Some(p) && g.kids[p][i] < |nodes| && (i > 0 ==> g.kids[p][i - 1] < |nodes|)
    requires ChainIs(Replace(nodes, p, g.kids[p][i], v, PrevOf(g.kids[p], i), clear), p, now)
    ensures i < |now| && now[i] == v
  {
    var ch, c := g.kids[p], g.kids[p][i];
    var after := Replace(nodes, p, c, v, PrevOf(ch, i), clear);
    ParentOf(g, p);
    SpliceEffect(nodes, p, c, v, PrevOf(ch, i), clear);
    hide Replace;
    ReplacedCount(nodes, after, p, ch, now);
    if i > 0 {
      forall j | 0 <= j < i - 1 ensures ch[j] < |nodes| && after[ch[j]].next == nodes[ch[j]].next { SpliceBefore(nodes, g, p, i, v, clear, j); }
      SamePrefix(nodes, after, p, ch, now, i - 1);
      assert LinkAt(after, now, i - 1);
      GraphAt(g, p, i - 1);
    }
  }

  lemma SpliceBefore(nodes: seq<Node>, g: Shape, p: nat, i: nat, v: nat, clear: bool, j: nat)
    requires Graph(g) && |g.kids| == |g.owner| == |nodes| && p < |nodes| && v < |nodes| && i < |g.kids[p]| && g.owner[v] != Some(p)
    requires g.kids[p][i] < |nodes| && 0 < i && g.kids[p][i - 1] < |nodes| && j + 1 < i
    ensures g.kids[p][j] < |nodes|
    ensures Replace(nodes, p, g.kids[p][i], v, PrevOf(g.kids[p], i), clear)[g.kids[p][j]].next == nodes[g.kids[p][j]].next
  {
    ParentOf(g, p);
    GraphAt(g, p, j);
    SpliceEffect(nodes, p, g.kids[p][i], v, PrevOf(g.kids[p], i), clear);
  }

  /** In the chain it was in, the new child is still found where it was. */
  lemma StillThere(nodes: seq<Node>, g: Shape, p: nat, i: nat, v: nat, clear: bool, h: Shape, att: seq<bool>, roots: seq<nat>, x: nat, j: nat)
    requires Graph(g) && |g.kids| == |g.owner| == |nodes| < NONE && p < |nodes| && i < |g.kids[p]| && AllChains(nodes, g.kids)
    requires x < |nodes| && x != p && j < |g.kids[x]| && v == g.kids[x][j] && v < |nodes|
    requires g.kids[p][i] < |nodes| && (i > 0 ==> g.kids[p][i - 1] < |nodes|)
    requires Forest(Replace(nodes, p, g.kids[p][i], v, PrevOf(g.kids[p], i), clear), h, att, roots)
    ensures |h.owner| == |nodes| && h.owner[v] == Some(x)
  {
    var ch, c := g.kids[x], g.kids[p][i];
    var after := Replace(nodes, p, c, v, PrevOf(g.kids[p], i), clear);
    ParentOf(g, p);
    ParentOf(g, x);
    GraphAt(g, p, i);
    if i > 0 { GraphAt(g, p, i - 1); }
    SpliceEffect(nodes, p, c, v, PrevOf(g.kids[p], i), clear);
    ReplaceKeeps(nodes, p, c, v, PrevOf(g.kids[p], i), clear);
    ForestAt(after, h, att, roots, x);
    hide Replace, Forest;
    KeepsCount(nodes, after, x, p, ch, h.kids[x]);
    forall k | 0 <= k < j ensures ch[k] < |nodes| && after[ch[k]].next == nodes[ch[k]].next {
      assert LinkAt(nodes, ch, k);
      GraphAt(g, x, k);
    }
    SamePrefix(nodes, after, x, ch, h.kids[x], j);
    ChildIs(after, h, att, roots, x, j);
  }

  lemma {:induction false} UnderAside(g: Shape, p: nat, i: nat, c: nat)
    requires Graph(g) && p < |g.kids| && i < |g.kids[p]| && g.kids[p][i] < |g.kids| && Graph(Detach(g, p, i)) && c < |g.kids|
    requires Under(g, c, p)
    ensures Under(Detach(g, p, i), c, p)
    decreases g.rank[c]
  {
    if c != p {
      var j :| 0 <= j < |g.kids[c]| && UnderKid(g, c, j, p);
      GraphAt(g, c, j);
      UnderAside(g, p, i, g.kids[c][j]);
      assert UnderKid(Detach(g, p, i), c, j, p);
    }
  }

  lemma SplicedAbove(nodes: seq<Node>, g: Shape, p: nat, i: nat, v: nat, clear: bool, h: Shape, att: seq<bool>, roots: seq<nat>)
    requires Graph(g) && |g.kids| == |g.owner| == |nodes| < NONE && p < |nodes| && i < |g.kids[p]| && AllChains(nodes, g.kids)
    requires v < |nodes| && v != p && g.owner[v].None? && Under(g, v, p)
    requires g.kids[p][i] < |nodes| && (i > 0 ==> g.kids[p][i - 1] < |nodes|)
    ensures !(Forest(Replace(nodes, p, g.kids[p][i], v, PrevOf(g.kids[p], i), clear), h, att, roots) && v < |h.rank| && p < |h.rank| && h.rank[v] < h.rank[p])
  {
    var ch, c := g.kids[p], g.kids[p][i];
    var after := Replace(nodes, p, c, v, PrevOf(ch, i), clear);
    if Forest(after, h, att, roots) {
      SpliceElsewhere(nodes, g, p, i, v, clear);
      ReplacedChain(nodes, g, p, i, v, clear);
      ForestAt(after, h, att, roots, p);
      ForestChains(after, h, att, roots);
      DetachGraph(g, p, i);
      UnderAside(g, p, i, v);
      hide Under, Graph, Forest, Replace, AllChains, Elsewhere;
      ChainUnique(after, p, h.kids[p], Put(ch, i, v));
      var d := Detach(g, p, i);
      forall x, k | 0 <= x < |d.kids| && 0 <= k < |d.kids[x]| ensures d.kids[x][k] in h.kids[x] {
        if x != p { SameElsewhere(nodes, after, g, h, att, roots, p, x); }
        else { assert h.kids[p][if k < i then k else k + 1] == d.kids[p][k]; }
      }
      RankBelow(d, h, v, p);
    }
  }
}
