/**
 * The walk that renews the depths below a node: when it comes back. It recurses along the links and has no bound of
 * its own; the fuel here is a bound on the recursion, and a walk that fails for every fuel never comes back.
 */
module DomDepth {
  import opened Wrappers
  import opened DomStore
  import opened DomForest

  /** yep_mut_set_depths from x comes back within fuel calls inside each other. */
  predicate Returns(nodes: seq<Node>, x: nat, fuel: nat)
    decreases fuel, 0, 0
  {
    x < |nodes| && fuel > 0 && Along(nodes, nodes[x].first, fuel - 1, |nodes|)
  }

  /** From each node of the chain that starts at c, of at most steps nodes. */
  predicate Along(nodes: seq<Node>, c: nat, fuel: nat, steps: nat)
    decreases fuel, 1, steps
  {
    c == NONE || (c < |nodes| && steps > 0 && Returns(nodes, c, fuel) && Along(nodes, nodes[c].next, fuel, steps - 1))
  }

  /** The chains of x and of everything below it are those of g. */
  ghost predicate ChainsBelow(nodes: seq<Node>, g: Shape, x: nat)
    requires Graph(g) && x < |g.kids|
  {
    forall y :: 0 <= y < |g.kids| && Under(g, x, y) ==> ChainIs(nodes, y, g.kids[y])
  }

  lemma {:induction false} Bounded(s: seq<nat>, n: nat)
    requires Distinct(s) && forall i :: 0 <= i < |s| ==> s[i] < n
    ensures |s| <= n
    decreases n
  {
    if n > 0 {
      if exists i :: 0 <= i < |s| && s[i] == n - 1 {
        var i :| 0 <= i < |s| && s[i] == n - 1;
        Bounded(s[..i] + s[i + 1..], n - 1);
      } else {
        Bounded(s, n - 1);
      }
    } else if s != [] {
      assert false;
    }
  }

  /** Where the chains are a forest's the walk comes back, at most as deep as the tree is high. */
  lemma {:induction false} ForestReturns(nodes: seq<Node>, g: Shape, x: nat, fuel: nat)
    requires Graph(g) && |g.kids| == |nodes| < NONE && x < |nodes| && ChainsBelow(nodes, g, x) && HeightOf(g, x) < fuel
    ensures Returns(nodes, x, fuel)
    decreases g.rank[x], |g.kids[x]| + 1
  {
    var ch := g.kids[x];
    assert Under(g, x, x);
    forall i | 0 <= i < |ch| ensures ch[i] < |nodes| { GraphAt(g, x, i); }
    ParentOf(g, x);
    Bounded(ch, |nodes|);
    hide Under, Graph, HeightOf, Returns, Along;
    if ch != [] { GraphAt(g, x, 0); }
    ChainReturns(nodes, g, x, 0, fuel - 1, |nodes|);
    ReturnsIf(nodes, x, fuel);
  }

  lemma ReturnsIf(nodes: seq<Node>, x: nat, fuel: nat)
    requires x < |nodes| && fuel > 0
    ensures Returns(nodes, x, fuel) <==> Along(nodes, nodes[x].first, fuel - 1, |nodes|)
  {
  }

  lemma {:induction false} ChainReturns(nodes: seq<Node>, g: Shape, x: nat, i: nat, fuel: nat, steps: nat)
    requires Graph(g) && |g.kids| == |nodes| < NONE && x < |nodes| && ChainsBelow(nodes, g, x) && HeightOf(g, x) <= fuel
    requires i <= |g.kids[x]| <= i + steps
    ensures Along(nodes, if i < |g.kids[x]| then g.kids[x][i] else NONE, fuel, steps)
    decreases g.rank[x], |g.kids[x]| - i
  {
    var ch := g.kids[x];
    if i < |ch| {
      GraphAt(g, x, i);
      KidHeight(g, x, |ch|, i);
      KidChains(nodes, g, x, i);
      ForestReturns(nodes, g, ch[i], fuel);
      ChainReturns(nodes, g, x, i + 1, fuel, steps - 1);
      assert Under(g, x, x);
      assert LinkAt(nodes, ch, i);
    }
  }

  lemma KidChains(nodes: seq<Node>, g: Shape, x: nat, i: nat)
    requires Graph(g) && x < |g.kids| && i < |g.kids[x]| && ChainsBelow(nodes, g, x)
    ensures g.kids[x][i] < |g.kids| && ChainsBelow(nodes, g, g.kids[x][i])
  {
    GraphAt(g, x, i);
    forall y | 0 <= y < |g.kids| && Under(g, g.kids[x][i], y) ensures Under(g, x, y) { assert UnderKid(g, x, i, y); }
    hide Under, Graph;
  }

  /** A chain with a node from which the walk does not come back. */
  lemma {:induction false} Stuck(nodes: seq<Node>, c: nat, ch: seq<nat>, k: nat, fuel: nat, steps: nat)
    requires k < |ch| && c == ch[0] && ch[k] < |nodes| < NONE && !Returns(nodes, ch[k], fuel)
    requires forall j :: 0 <= j < k ==> ch[j] < |nodes| && nodes[ch[j]].next == ch[j + 1]
    ensures !Along(nodes, c, fuel, steps)
    decreases k
  {
    if k > 0 && steps > 0 {
      Stuck(nodes, ch[1], ch[1..], k - 1, fuel, steps - 1);
    }
  }

  // ---- after a splice ----------------------------------------------------------------------------------------

  /** A splice changes no chain at or below a new child that is not above p. */
  lemma SplicedBelow(nodes: seq<Node>, g: Shape, p: nat, i: nat, v: nat, clear: bool)
    requires Graph(g) && |g.kids| == |g.owner| == |nodes| < NONE && AllChains(nodes, g.kids) && p < |nodes| && v < |nodes| && i < |g.kids[p]|
    requires !Under(g, v, p)
    ensures g.kids[p][i] < |nodes| && (i > 0 ==> g.kids[p][i - 1] < |nodes|)
    ensures ChainsBelow(Replace(nodes, p, g.kids[p][i], v, PrevOf(g.kids[p], i), clear), g, v)
  {
    GraphAt(g, p, i);
    if i > 0 { GraphAt(g, p, i - 1); }
    var after := Replace(nodes, p, g.kids[p][i], v, PrevOf(g.kids[p], i), clear);
    forall y | 0 <= y < |g.kids| && Under(g, v, y) ensures ChainIs(after, y, g.kids[y]) {
      hide Replace, Graph, AllChains, Under;
      ChainBelow(nodes, g, p, i, v, clear, y);
    }
  }

  lemma ChainBelow(nodes: seq<Node>, g: Shape, p: nat, i: nat, v: nat, clear: bool, y: nat)
    requires Graph(g) && |g.kids| == |g.owner| == |nodes| < NONE && AllChains(nodes, g.kids) && p < |nodes| && v < |nodes| && i < |g.kids[p]|
    requires g.kids[p][i] < |nodes| && (i > 0 ==> g.kids[p][i - 1] < |nodes|)
    requires y < |nodes| && y != p && Under(g, v, y)
    ensures ChainIs(Replace(nodes, p, g.kids[p][i], v, PrevOf(g.kids[p], i), clear), y, g.kids[y])
  {
    var after, ch := Replace(nodes, p, g.kids[p][i], v, PrevOf(g.kids[p], i), clear), g.kids[y];
    GraphAt(g, p, i);
    if i > 0 { GraphAt(g, p, i - 1); }
    ParentOf(g, p);
    SpliceEffect(nodes, p, g.kids[p][i], v, PrevOf(g.kids[p], i), clear);
    ReplaceKeeps(nodes, p, g.kids[p][i], v, PrevOf(g.kids[p], i), clear);
    RankUnder(g, v, y);
    hide Replace, Under;
    forall k | 0 <= k < |ch| ensures LinkAt(after, ch, k) {
      assert LinkAt(nodes, ch, k);
      GraphAt(g, y, k);
    }
  }

  lemma {:induction false} RankUnder(g: Shape, c: nat, n: nat)
    requires Graph(g) && c < |g.kids| && Under(g, c, n)
    ensures n < |g.kids| && g.rank[n] <= g.rank[c]
    decreases g.rank[c]
  {
    if n != c {
      var i :| 0 <= i < |g.kids[c]| && UnderKid(g, c, i, n);
      GraphAt(g, c, i);
      RankUnder(g, g.kids[c][i], n);
    }
  }

  /** Spliced in below itself the new child is below itself: from it the walk never comes back. */
  lemma NeverReturns(nodes: seq<Node>, g: Shape, p: nat, i: nat, v: nat, clear: bool, fuel: nat)
    requires Graph(g) && |g.kids| == |g.owner| == |nodes| < NONE && AllChains(nodes, g.kids) && p < |nodes| && v < |nodes| && i < |g.kids[p]|
    requires Under(g, v, p)
    ensures g.kids[p][i] < |nodes| && (i > 0 ==> g.kids[p][i - 1] < |nodes|)
    ensures !Returns(Replace(nodes, p, g.kids[p][i], v, PrevOf(g.kids[p], i), clear), v, fuel)
  {
    GraphAt(g, p, i);
    if i > 0 { GraphAt(g, p, i - 1); }
    assert Under(g, v, v);
    Circles(nodes, g, p, i, v, clear, v, fuel);
  }

  /** On the way from v down to p the walk is never done. */
  lemma {:induction false} Circles(nodes: seq<Node>, g: Shape, p: nat, i: nat, v: nat, clear: bool, x: nat, fuel: nat)
    requires Graph(g) && |g.kids| == |g.owner| == |nodes| < NONE && AllChains(nodes, g.kids) && p < |nodes| && v < |nodes| && i < |g.kids[p]|
    requires Under(g, v, p) && x < |nodes| && Under(g, v, x) && Under(g, x, p)
    requires g.kids[p][i] < |nodes| && (i > 0 ==> g.kids[p][i - 1] < |nodes|)
    ensures !Returns(Replace(nodes, p, g.kids[p][i], v, PrevOf(g.kids[p], i), clear), x, fuel)
    decreases fuel
  {
    var after := Replace(nodes, p, g.kids[p][i], v, PrevOf(g.kids[p], i), clear);
    if fuel > 0 {
      if x == p {
        assert Under(g, v, v);
        Circles(nodes, g, p, i, v, clear, v, fuel - 1);
        hide Under, Graph, AllChains, Replace, Along, Returns;
        ThroughParent(nodes, g, p, i, v, clear, fuel - 1);
      } else {
        var k :| 0 <= k < |g.kids[x]| && UnderKid(g, x, k, p);
        GraphAt(g, x, k);
        UnderDown(g, v, x, k);
        Circles(nodes, g, p, i, v, clear, g.kids[x][k], fuel - 1);
        ChainBelow(nodes, g, p, i, v, clear, x);
        hide Under, Graph, AllChains, Replace, Along, Returns;
        ThroughChain(after, x, g.kids[x], k, fuel - 1);
      }
      ReturnsIf(after, x, fuel);
    }
  }

  lemma ThroughChain(nodes: seq<Node>, x: nat, ch: seq<nat>, k: nat, fuel: nat)
    requires ChainIs(nodes, x, ch) && k < |ch| && ch[k] < |nodes| < NONE && !Returns(nodes, ch[k], fuel)
    ensures !Along(nodes, nodes[x].first, fuel, |nodes|)
  {
    forall j | 0 <= j < k ensures ch[j] < |nodes| && nodes[ch[j]].next == ch[j + 1] { assert LinkAt(nodes, ch, j); }
    Stuck(nodes, ch[0], ch, k, fuel, |nodes|);
  }

  /** p's chain leads to v, whatever comes behind. */
  lemma ThroughParent(nodes: seq<Node>, g: Shape, p: nat, i: nat, v: nat, clear: bool, fuel: nat)
    requires Graph(g) && |g.kids| == |g.owner| == |nodes| < NONE && AllChains(nodes, g.kids) && p < |nodes| && v < |nodes| && i < |g.kids[p]|
    requires g.kids[p][i] < |nodes| && (i > 0 ==> g.kids[p][i - 1] < |nodes|) && Under(g, v, p)
    requires !Returns(Replace(nodes, p, g.kids[p][i], v, PrevOf(g.kids[p], i), clear), v, fuel)
    ensures var after := Replace(nodes, p, g.kids[p][i], v, PrevOf(g.kids[p], i), clear);
      !Along(after, after[p].first, fuel, |nodes|)
  {
    var ch := g.kids[p];
    var after := Replace(nodes, p, ch[i], v, PrevOf(ch, i), clear);
    ParentOf(g, p);
    SpliceEffect(nodes, p, ch[i], v, PrevOf(ch, i), clear);
    AboveIsNoChild(g, p, v);
    hide Replace, Returns, Along, Under;
    var path := ch[..i] + [v];
    assert ChainIs(nodes, p, ch);
    forall j | 0 <= j < i ensures path[j] < |nodes| && after[path[j]].next == path[j + 1] {
      assert LinkAt(nodes, ch, j);
      GraphAt(g, p, j);
    }
    assert path[0] == after[p].first;
    Stuck(after, path[0], path, i, fuel, |nodes|);
  }

  lemma AboveIsNoChild(g: Shape, p: nat, v: nat)
    requires Graph(g) && p < |g.kids| && v < |g.kids| && Under(g, v, p)
    ensures forall j :: 0 <= j < |g.kids[p]| ==> g.kids[p][j] != v
  {
    RankUnder(g, v, p);
    forall j | 0 <= j < |g.kids[p]| ensures g.kids[p][j] != v { GraphAt(g, p, j); }
  }
}
