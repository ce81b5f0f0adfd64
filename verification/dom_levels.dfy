/** The depth table of the mutations: what a walk that renews it leaves, and when its entries are the levels of the nodes. */
module DomLevels {
  import opened Wrappers
  import opened DomStore
  import opened DomForest
  import opened DomDepth

  // ---- levels ---------------------------------------------------------------------------

  /** n hangs k links below x. */
  ghost predicate Hangs(g: Shape, x: nat, n: nat, k: nat)
    requires Graph(g) && x < |g.kids|
    decreases k, 1
  {
    if k == 0 then n == x else exists i :: 0 <= i < |g.kids[x]| && HangsKid(g, x, i, n, k)
  }

  /** And one link less below child i. */
  ghost predicate HangsKid(g: Shape, x: nat, i: nat, n: nat, k: nat)
    requires Graph(g) && x < |g.kids| && i < |g.kids[x]| && k > 0
    decreases k, 0
  {
    GraphAt(g, x, i);
    Hangs(g, g.kids[x][i], n, k - 1)
  }

  lemma KidOf(g: Shape, x: nat, n: nat, k: nat) returns (i: nat)
    requires Graph(g) && x < |g.kids| && Hangs(g, x, n, k) && k > 0
    ensures i < |g.kids[x]| && g.kids[x][i] < |g.kids| && HangsKid(g, x, i, n, k) && Hangs(g, g.kids[x][i], n, k - 1)
  {
    i :| 0 <= i < |g.kids[x]| && HangsKid(g, x, i, n, k);
    GraphAt(g, x, i);
  }

  /** What is under a node hangs some number of links below it. */
  lemma {:induction false} UnderHangs(g: Shape, x: nat, n: nat) returns (k: nat)
    requires Graph(g) && x < |g.kids| && Under(g, x, n)
    ensures Hangs(g, x, n, k)
    decreases g.rank[x]
  {
    k := 0;
    if n != x {
      var i :| 0 <= i < |g.kids[x]| && UnderKid(g, x, i, n);
      GraphAt(g, x, i);
      k := UnderHangs(g, g.kids[x][i], n);
      k := k + 1;
      assert HangsKid(g, x, i, n, k);
    }
  }

  lemma {:induction false} HangsUnder(g: Shape, x: nat, n: nat, k: nat)
    requires Graph(g) && x < |g.kids| && Hangs(g, x, n, k)
    ensures Under(g, x, n) && n < |g.kids|
    decreases k
  {
    if k > 0 {
      var i :| 0 <= i < |g.kids[x]| && HangsKid(g, x, i, n, k);
      GraphAt(g, x, i);
      HangsUnder(g, g.kids[x][i], n, k - 1);
      assert UnderKid(g, x, i, n);
    }
  }

  /** A node that hangs below x hangs one link above that below its own parent's level. */
  lemma {:induction false} HangsUp(g: Shape, x: nat, n: nat, k: nat)
    requires Graph(g) && x < |g.kids| && Hangs(g, x, n, k) && k > 0
    ensures n < |g.kids| && g.owner[n].Some? && g.owner[n].value < |g.kids| && Hangs(g, x, g.owner[n].value, k - 1)
    decreases k
  {
    var i := KidOf(g, x, n, k);
    GraphAt(g, x, i);
    if k == 1 {
      assert n == g.kids[x][i];
    } else {
      HangsUp(g, g.kids[x][i], n, k - 1);
      assert HangsKid(g, x, i, g.owner[n].value, k - 1);
    }
  }

  lemma {:induction false} HangsDown(g: Shape, x: nat, n: nat, k: nat, c: nat)
    requires Graph(g) && x < |g.kids| && Hangs(g, x, n, k) && c < |g.kids| && g.owner[c] == Some(n)
    ensures Hangs(g, x, c, k + 1)
    decreases k
  {
    if k == 0 {
      assert Listed(g, c);
      var i :| 0 <= i < |g.kids[x]| && g.kids[x][i] == c;
      assert HangsKid(g, x, i, c, 1);
    } else {
      var i :| 0 <= i < |g.kids[x]| && HangsKid(g, x, i, n, k);
      GraphAt(g, x, i);
      HangsDown(g, g.kids[x][i], n, k - 1, c);
      assert HangsKid(g, x, i, c, k + 1);
    }
  }

  // ---- heights --------------------------------------------------------------------------------

  /** Something hangs k links below x. */
  ghost predicate Reaches(g: Shape, x: nat, k: nat)
    requires Graph(g) && x < |g.kids|
  {
    exists n: nat :: Hangs(g, x, n, k)
  }

  /** A node is as high as the longest way down from it. */
  lemma {:induction false} HeightExactly(g: Shape, x: nat, k: nat)
    requires Graph(g) && x < |g.kids|
    ensures Reaches(g, x, k) <==> k <= HeightOf(g, x)
    decreases g.rank[x], 1, 0
  {
    hide Hangs, HeightOf, TallestOf;
    if k == 0 {
      HangsSelf(g, x);
    } else {
      TallestExactly(g, x, |g.kids[x]|, k);
      HeightIs(g, x);
      KidsReach(g, x, k);
    }
  }

  lemma HangsSelf(g: Shape, x: nat)
    requires Graph(g) && x < |g.kids|
    ensures Hangs(g, x, x, 0)
  {}

  lemma HeightIs(g: Shape, x: nat)
    requires Graph(g) && x < |g.kids|
    ensures HeightOf(g, x) == TallestOf(g, x, |g.kids[x]|)
  {}

  /** From one of the first j children something is reached one link earlier. */
  ghost predicate KidReaches(g: Shape, x: nat, j: nat, k: nat)
    requires Graph(g) && x < |g.kids| && j <= |g.kids[x]| && k > 0
  {
    exists i :: 0 <= i < j && g.kids[x][i] < |g.kids| && Reaches(g, g.kids[x][i], k - 1)
  }

  lemma KidsReach(g: Shape, x: nat, k: nat)
    requires Graph(g) && x < |g.kids| && k > 0
    ensures Reaches(g, x, k) <==> KidReaches(g, x, |g.kids[x]|, k)
  {
    if Reaches(g, x, k) {
      var n: nat :| Hangs(g, x, n, k);
      var i := KidOf(g, x, n, k);
      assert Reaches(g, g.kids[x][i], k - 1);
    }
    if KidReaches(g, x, |g.kids[x]|, k) {
      var i :| 0 <= i < |g.kids[x]| && g.kids[x][i] < |g.kids| && Reaches(g, g.kids[x][i], k - 1);
      HangsThrough(g, x, i, k);
    }
  }

  lemma HangsThrough(g: Shape, x: nat, i: nat, k: nat)
    requires Graph(g) && x < |g.kids| && i < |g.kids[x]| && g.kids[x][i] < |g.kids| && k > 0 && Reaches(g, g.kids[x][i], k - 1)
    ensures Reaches(g, x, k)
  {
    var c, less := g.kids[x][i], k - 1;
    var n: nat :| Hangs(g, c, n, less);
    assert HangsKid(g, x, i, n, k);
    assert Hangs(g, x, n, k);
  }

  lemma {:induction false} TallestExactly(g: Shape, x: nat, j: nat, k: nat)
    requires Graph(g) && x < |g.kids| && j <= |g.kids[x]| && k > 0
    ensures KidReaches(g, x, j, k) <==> k <= TallestOf(g, x, j)
    decreases g.rank[x], 0, j
  {
    hide Reaches, HeightOf;
    if j > 0 {
      GraphAt(g, x, j - 1);
      TallestExactly(g, x, j - 1, k);
      HeightExactly(g, g.kids[x][j - 1], k - 1);
    }
  }

  // ---- what a renewing walk leaves --------------------------------------------------------------

  /** From x on every depth is one more than its parent's, and nothing else has changed. */
  ghost predicate Renewed(g: Shape, x: nat, d: nat, before: seq<nat>, after: seq<nat>) {
    && Graph(g) && |before| == |after| == |g.kids| && x < |g.kids| && after[x] == d
    && (forall n :: 0 <= n < |g.kids| && Under(g, x, n) && n != x ==> OneBelow(g, after, n))
    && (forall n :: 0 <= n < |g.kids| && !Under(g, x, n) ==> after[n] == before[n])
  }

  /** The depth of n is one more than its parent's. */
  predicate OneBelow(g: Shape, depth: seq<nat>, n: nat)
    requires n < |g.owner|
  {
    g.owner[n].Some? && n < |depth| && g.owner[n].value < |depth| && depth[n] == depth[g.owner[n].value] + 1
  }

  /** The same for x and its first i children. */
  ghost predicate RenewedTo(g: Shape, x: nat, i: nat, d: nat, before: seq<nat>, after: seq<nat>) {
    && Graph(g) && |before| == |after| == |g.kids| && x < |g.kids| && i <= |g.kids[x]| && after[x] == d
    && (forall n, j :: 0 <= n < |g.kids| && 0 <= j < i && UnderKid(g, x, j, n) ==> OneBelow(g, after, n))
    && (forall n :: 0 <= n < |g.kids| && n != x && (forall j :: 0 <= j < i ==> !UnderKid(g, x, j, n)) ==> after[n] == before[n])
  }

  /** Nothing is under two children. */
  lemma {:induction false} OneKid(g: Shape, x: nat, i: nat, j: nat, n: nat)
    requires Graph(g) && x < |g.kids| && i < |g.kids[x]| && j < |g.kids[x]| && i != j && UnderKid(g, x, i, n)
    ensures !UnderKid(g, x, j, n)
    decreases if n < |g.kids| && g.rank[n] <= g.rank[x] then g.rank[x] - g.rank[n] else 0
  {
    var a, b := g.kids[x][i], g.kids[x][j];
    GraphAt(g, x, i);
    GraphAt(g, x, j);
    KidsApart(g, x, i, j);
    RankUnder(g, a, n);
    if UnderKid(g, x, j, n) {
      if n == a {
        UnderUp(g, b, a);
        RankUnder(g, b, x);
      } else if n == b {
        UnderUp(g, a, b);
        RankUnder(g, a, x);
      } else {
        UnderUp(g, a, n);
        UnderUp(g, b, n);
        OwnerRank(g, n);
        OneKid(g, x, i, j, g.owner[n].value);
      }
    }
  }

  lemma KidsApart(g: Shape, x: nat, i: nat, j: nat)
    requires Graph(g) && x < |g.kids| && i < |g.kids[x]| && j < |g.kids[x]| && i != j
    ensures g.kids[x][i] != g.kids[x][j]
  {
    assert Parent(g, x);
    if i < j { assert g.kids[x][i] != g.kids[x][j]; } else { assert g.kids[x][j] != g.kids[x][i]; }
  }

  lemma OwnerRank(g: Shape, n: nat)
    requires Graph(g) && n < |g.kids| && g.owner[n].Some?
    ensures g.owner[n].value < |g.kids| && g.rank[n] < g.rank[g.owner[n].value]
  {
    assert Listed(g, n);
    var x := g.owner[n].value;
    var i :| 0 <= i < |g.kids[x]| && g.kids[x][i] == n;
    GraphAt(g, x, i);
  }

  /** Not above its own children. */
  lemma NotUnderKid(g: Shape, x: nat, i: nat)
    requires Graph(g) && x < |g.kids| && i < |g.kids[x]|
    ensures !UnderKid(g, x, i, x)
  {
    GraphAt(g, x, i);
    if UnderKid(g, x, i, x) { RankUnder(g, g.kids[x][i], x); }
  }

  /** One more child renewed. */
  lemma RenewedStep(g: Shape, x: nat, i: nat, d: nat, before: seq<nat>, mid: seq<nat>, after: seq<nat>)
    requires RenewedTo(g, x, i, d, before, mid) && i < |g.kids[x]| && Renewed(g, g.kids[x][i], d + 1, mid, after)
    ensures RenewedTo(g, x, i + 1, d, before, after)
  {
    var a := g.kids[x][i];
    GraphAt(g, x, i);
    NotUnderKid(g, x, i);
    KidIs(g, x, i);
    hide Graph, Under, UnderKid;
    forall n, j | 0 <= n < |g.kids| && 0 <= j < i + 1 && UnderKid(g, x, j, n) ensures OneBelow(g, after, n) {
      if j < i {
        OneKid(g, x, j, i, n);
        KidOwner(g, x, j, n);
        var o := g.owner[n].value;
        if o != x { OneKid(g, x, j, i, o); }
      } else if n != a {
        assert OneBelow(g, after, n);
      }
    }
  }

  /** Below a child is what is under it; the child itself is x's. */
  lemma KidIs(g: Shape, x: nat, i: nat)
    requires Graph(g) && x < |g.kids| && i < |g.kids[x]|
    ensures g.kids[x][i] < |g.kids| && g.owner[g.kids[x][i]] == Some(x)
    ensures forall n :: UnderKid(g, x, i, n) <==> Under(g, g.kids[x][i], n)
  {
    GraphAt(g, x, i);
  }

  /** The parent of what is under a child is x, or under that child too. */
  lemma KidOwner(g: Shape, x: nat, j: nat, n: nat)
    requires Graph(g) && x < |g.kids| && j < |g.kids[x]| && UnderKid(g, x, j, n)
    ensures n < |g.kids| && g.owner[n].Some? && g.owner[n].value < |g.kids|
    ensures g.owner[n].value != x ==> UnderKid(g, x, j, g.owner[n].value)
  {
    GraphAt(g, x, j);
    var a := g.kids[x][j];
    if n != a { UnderUp(g, a, n); }
  }

  lemma RenewedStart(g: Shape, x: nat, d: nat, before: seq<nat>)
    requires Graph(g) && x < |g.kids| == |before|
    ensures RenewedTo(g, x, 0, d, before, before[x := d])
  {}

  lemma RenewedEnd(g: Shape, x: nat, d: nat, before: seq<nat>, after: seq<nat>)
    requires x < |g.kids| && RenewedTo(g, x, |g.kids[x]|, d, before, after)
    ensures Renewed(g, x, d, before, after)
  {
    forall n | 0 <= n < |g.kids| && !Under(g, x, n) ensures after[n] == before[n] {
      assert forall j :: 0 <= j < |g.kids[x]| ==> !UnderKid(g, x, j, n);
    }
  }

  /** Every node k links below x has depth d + k. */
  lemma {:induction false} RenewedLevels(g: Shape, x: nat, d: nat, before: seq<nat>, after: seq<nat>, n: nat, k: nat)
    requires Renewed(g, x, d, before, after) && Hangs(g, x, n, k)
    ensures n < |after| && after[n] == d + k
    decreases k
  {
    HangsUnder(g, x, n, k);
    if k > 0 {
      HangsUp(g, x, n, k);
      RenewedLevels(g, x, d, before, after, g.owner[n].value, k - 1);
      OwnerRank(g, n);
      if n == x { NotAbove(g, x, k); }
    }
  }

  lemma NotAbove(g: Shape, x: nat, k: nat)
    requires Graph(g) && x < |g.kids| && k > 0
    ensures !Hangs(g, x, x, k)
  {
    if Hangs(g, x, x, k) {
      var i := KidOf(g, x, x, k);
      GraphAt(g, x, i);
      HangsUnder(g, g.kids[x][i], x, k - 1);
      RankUnder(g, g.kids[x][i], x);
    }
  }

  // ---- the table as levels --------------------------------------------------------------------------

  /** Every node with a parent is one deeper than it. */
  predicate Stepped(g: Shape, depth: seq<nat>) {
    |depth| == |g.owner| && forall n :: 0 <= n < |g.owner| && g.owner[n].Some? ==> OneBelow(g, depth, n)
  }

  /** Every depth is that of any node above and the links between. */
  ghost predicate Levelled(g: Shape, depth: seq<nat>) {
    Graph(g) && |depth| == |g.kids| && forall x, n, k: nat :: 0 <= x < |g.kids| && 0 <= n < |g.kids| && Hangs(g, x, n, k) ==> depth[n] == depth[x] + k
  }

  lemma SteppedExactly(g: Shape, depth: seq<nat>)
    requires Graph(g) && |depth| == |g.kids|
    ensures Stepped(g, depth) <==> Levelled(g, depth)
  {
    hide Graph, Hangs;
    if Stepped(g, depth) {
      forall x, n, k: nat | 0 <= x < |g.kids| && 0 <= n < |g.kids| && Hangs(g, x, n, k) ensures depth[n] == depth[x] + k {
        SteppedLevels(g, depth, x, n, k);
      }
    }
    if Levelled(g, depth) {
      Counts(g);
      forall n | 0 <= n < |g.owner| && g.owner[n].Some? ensures OneBelow(g, depth, n) {
        OwnerRank(g, n);
        var o := g.owner[n].value;
        HangsSelf(g, o);
        HangsDown(g, o, o, 0, n);
      }
    }
  }

  lemma Counts(g: Shape)
    requires Graph(g)
    ensures |g.owner| == |g.kids|
  {}

  lemma {:induction false} SteppedLevels(g: Shape, depth: seq<nat>, x: nat, n: nat, k: nat)
    requires Graph(g) && Stepped(g, depth) && x < |g.kids| && Hangs(g, x, n, k)
    ensures n < |depth| && x < |depth| && depth[n] == depth[x] + k
    decreases k
  {
    HangsUnder(g, x, n, k);
    if k > 0 {
      HangsUp(g, x, n, k);
      SteppedLevels(g, depth, x, g.owner[n].value, k - 1);
      assert OneBelow(g, depth, n);
    }
  }

  // ---- what the mutations do to it ---------------------------------------------------------------------

  /** One link: the table stays stepped exactly when the child had no children, or its depth was right already. */
  lemma JoinStepped(g: Shape, depth: seq<nat>, p: nat, c: nat)
    requires Graph(g) && Stepped(g, depth) && p < |g.kids| && c < |g.kids| && g.owner[c].None? && c != p
    ensures |depth| == |g.kids|
    ensures Stepped(Joined(g, p, c), depth[c := depth[p] + 1]) <==> g.kids[c] == [] || depth[c] == depth[p] + 1
  {
    var h, after := Joined(g, p, c), depth[c := depth[p] + 1];
    AttachOwners(g, p, c);
    if g.kids[c] != [] && Stepped(h, after) {
      GraphAt(g, c, 0);
      var n := g.kids[c][0];
      assert OneBelow(g, depth, n) && OneBelow(h, after, n);
    }
    if g.kids[c] == [] || depth[c] == depth[p] + 1 {
      forall n | 0 <= n < |h.owner| && h.owner[n].Some? ensures OneBelow(h, after, n) {
        if n != c {
          assert OneBelow(g, depth, n);
          assert Listed(g, n);
        }
      }
    }
  }

  lemma AttachOwners(g: Shape, p: nat, c: nat)
    requires Graph(g) && p < |g.kids| && c < |g.kids|
    ensures Joined(g, p, c).owner == g.owner[c := Some(p)]
  {}

  /** A walk from x renews the table up to x's own step. */
  lemma RenewedStepped(g: Shape, h: Shape, x: nat, d: nat, before: seq<nat>, after: seq<nat>)
    requires Graph(g) && Stepped(g, before) && Renewed(h, x, d, before, after)
    requires |g.owner| == |h.owner| && forall n :: 0 <= n < |h.owner| && n != x && h.owner[n].Some? ==> h.owner[n] == g.owner[n]
    ensures Stepped(h, after) <==> (h.owner[x].Some? ==> OneBelow(h, after, x))
  {
    Counts(h);
    hide Graph, Under;
    forall n | 0 <= n < |h.owner| && h.owner[n].Some? && n != x ensures OneBelow(h, after, n) {
      if !Under(h, x, n) {
        OwnerRank(h, n);
        OwnerNotUnder(h, x, n);
        assert OneBelow(g, before, n);
      }
    }
    if h.owner[x].Some? && Stepped(h, after) { assert OneBelow(h, after, x); }
  }

  lemma OwnerNotUnder(g: Shape, x: nat, n: nat)
    requires Graph(g) && x < |g.kids| && n < |g.kids| && g.owner[n].Some? && g.owner[n].value < |g.kids| && !Under(g, x, n)
    ensures !Under(g, x, g.owner[n].value)
  {
    if Under(g, x, g.owner[n].value) {
      assert Listed(g, n);
      var o := g.owner[n].value;
      var j :| 0 <= j < |g.kids[o]| && g.kids[o][j] == n;
      UnderDown(g, x, o, j);
    }
  }
}
