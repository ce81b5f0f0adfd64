/** A document tree as value records, and what the Marshal writer makes of them: counts, bytes, bindings. */
module MarshalTree {
  import opened Bytes
  import opened MarshalNumber
  import opened MarshalWrite

  predicate ScalarKind(k: Kind) { k.Null? || k.Bool? || k.Int? || k.Float? || k.Str? }

  type ScalarRecord = r: Record | Storable(r) && ScalarKind(r.kind)
    witness Record(Null, [], false, false, false, 0, [])

  /** A table's kids alternate keys and values. An empty anchor is none. */
  datatype Tree =
    | Scalar(anchor: seq<byte>, rec: ScalarRecord)
    | Link(name: seq<byte>)
    | List(anchor: seq<byte>, kids: seq<Tree>)
    | Table(anchor: seq<byte>, kids: seq<Tree>)

  predicate IsBranch(t: Tree) { t.List? || t.Table? }

  predicate Shaped(t: Tree)
    decreases t
  {
    match t
    case Scalar(_, _) => true
    case Link(_) => true
    case List(_, kids) => forall k :: 0 <= k < |kids| ==> Shaped(kids[k])
    case Table(_, kids) => |kids| % 2 == 0 && forall k :: 0 <= k < |kids| ==> Shaped(kids[k])
  }

  // ---- records ------------------------------------------------------------------------

  function Entry(kind: Kind, text: seq<byte>, isKey: bool): Record {
    Record(kind, text, false, isKey, false, 0, [])
  }

  /** The anchor entry in front of an anchored value. */
  function Mark(anchor: seq<byte>): seq<Record> {
    if anchor == [] then [] else [Entry(Anchor, anchor, false)]
  }

  function KeySlot(t: Tree, k: nat): bool { t.Table? && k % 2 == 0 }

  function Opening(t: Tree, isKey: bool): Record
    requires IsBranch(t)
  {
    Entry(if t.List? then SeqOpen else MapOpen, [], isKey)
  }

  const CLOSING: Record := Entry(Close, [], false)

  function AnchorOf(t: Tree): seq<byte> { if t.Link? then [] else t.anchor }

  /** The records of a tree, as the document walk lists them. */
  function Records(t: Tree, isKey: bool): (r: seq<Record>)
    ensures r != []
    decreases t, 1, 0
  {
    Mark(AnchorOf(t)) + Core(t, isKey)
  }

  /** The records without the anchor. */
  function Core(t: Tree, isKey: bool): (r: seq<Record>)
    ensures r != []
    decreases t, 0, 1
  {
    match t
    case Scalar(_, rec) => [rec.(isKey := isKey)]
    case Link(name) => [Entry(Alias, name, isKey)]
    case _ => [Opening(t, isKey)] + KidRecords(t, 0) + [CLOSING]
  }

  /** The records of the kids from k on. */
  function KidRecords(t: Tree, k: nat): seq<Record>
    requires IsBranch(t) && k <= |t.kids|
    decreases t, 0, 0, |t.kids| - k
  {
    if k == |t.kids| then [] else Records(t.kids[k], KeySlot(t, k)) + KidRecords(t, k + 1)
  }

  /** The records rs stand at position i. */
  predicate Runs(recs: seq<Record>, i: nat, rs: seq<Record>) {
    i + |rs| <= |recs| && recs[i..i + |rs|] == rs
  }

  lemma RunsSplit(recs: seq<Record>, i: nat, a: seq<Record>, b: seq<Record>)
    requires Runs(recs, i, a + b)
    ensures Runs(recs, i, a) && Runs(recs, i + |a|, b)
  {
    var s := recs[i..i + |a + b|];
    assert s[..|a|] == a && s[|a|..] == b;
  }

  // ---- counts ------------------------------------------------------------------------------

  /** What the opening of a branch announces: elements, or pairs. */
  function Announced(t: Tree): nat
    requires IsBranch(t)
  {
    if t.List? then |t.kids| else |t.kids| / 2
  }

  /** The announced counts of a tree's branches, in the order they open. */
  function TreeCounts(t: Tree): seq<nat>
    decreases t, 1, 0
  {
    if IsBranch(t) then [Announced(t)] + KidCounts(t, 0) else []
  }

  function KidCounts(t: Tree, k: nat): seq<nat>
    requires IsBranch(t) && k <= |t.kids|
    decreases t, 0, |t.kids| - k
  {
    if k == |t.kids| then [] else TreeCounts(t.kids[k]) + KidCounts(t, k + 1)
  }

  lemma {:induction false} TalliedSplit(recs: seq<Record>, i: nat, j: nat, t: Tally)
    requires i <= j <= |recs|
    ensures Tallied(recs, i, t) == Tallied(recs, j, TallyRun(recs, i, j, t))
    decreases j - i
  {
    if i < j { TalliedSplit(recs, i + 1, j, TallyStep(t, recs[i])); }
  }

  /** The counting pass over the records from i up to j. */
  function TallyRun(recs: seq<Record>, i: nat, j: nat, t: Tally): Tally
    requires i <= j <= |recs|
    decreases j - i
  {
    if i == j then t else TallyRun(recs, i + 1, j, TallyStep(t, recs[i]))
  }

  lemma {:induction false} TallyJoin(recs: seq<Record>, i: nat, j: nat, k: nat, t: Tally)
    requires i <= j <= k <= |recs|
    ensures TallyRun(recs, i, k, t) == TallyRun(recs, j, k, TallyRun(recs, i, j, t))
    decreases j - i
  {
    if i < j { TallyJoin(recs, i + 1, j, k, TallyStep(t, recs[i])); }
  }

  /** The innermost open container gains an element when the slot counts. */
  function Gain(t: Tally, isKey: bool): Tally {
    Credit(t, Entry(Null, [], isKey))
  }

  function Plus(t: Tally, cs: seq<nat>): Tally { t.(counts := t.counts + cs) }

  /** After one value the counts hold its own, in opening order, and one more for the container it stands in. */
  lemma {:induction false} TreeTally(recs: seq<Record>, i: nat, tree: Tree, isKey: bool, t: Tally)
    requires Runs(recs, i, Records(tree, isKey)) && Shaped(tree) && TallyInside(t)
    ensures TallyRun(recs, i, i + |Records(tree, isKey)|, t) == Plus(Gain(t, isKey), TreeCounts(tree))
    decreases tree, 1
  {
    var mark, core := Mark(AnchorOf(tree)), Core(tree, isKey);
    RunsSplit(recs, i, mark, core);
    TallyJoin(recs, i, i + |mark|, i + |mark| + |core|, t);
    if mark != [] { assert recs[i..i + 1][0] == recs[i]; }
    assert TallyRun(recs, i, i + |mark|, t) == t;
    CoreTally(recs, i + |mark|, tree, isKey, t);
  }

  function Bump(counts: seq<nat>, top: nat, n: nat): (r: seq<nat>)
    requires top < |counts|
    ensures |r| == |counts|
  {
    counts[top := counts[top] + n]
  }

  lemma BumpTwice(c: seq<nat>, top: nat, a: nat, d: seq<nat>, b: nat, e: seq<nat>)
    requires top < |c|
    ensures Bump(Bump(c, top, a) + d, top, b) + e == Bump(c, top, a + b) + (d + e)
  {
    assert Bump(Bump(c, top, a) + d, top, b) == Bump(c, top, a + b) + d;
    assert Bump(c, top, a + b) + d + e == Bump(c, top, a + b) + (d + e);
  }

  lemma BumpNothing(c: seq<nat>, top: nat)
    requires top < |c|
    ensures Bump(c, top, 0) + [] == c
  {
  }

  lemma BumpLast(c: seq<nat>, n: nat, e: seq<nat>)
    ensures Bump(c + [0], |c|, n) + e == c + ([n] + e)
  {
    assert Bump(c + [0], |c|, n) == c + [n];
    assert c + [n] + e == c + ([n] + e);
  }

  /** What a slot of the innermost container gains by one value. */
  function Gained(isMap: bool, isKey: bool): nat { if isMap && !isKey then 0 else 1 }

  lemma GainIsBump(t: Tally, isKey: bool)
    requires TallyInside(t) && t.stack != []
    ensures var top := t.stack[|t.stack| - 1];
      Gain(t, isKey) == Tally(t.stack, Bump(t.counts, top.index, Gained(top.isMap, isKey)))
  {
    var top := t.stack[|t.stack| - 1];
    assert top.index < |t.counts|;
    assert Bump(t.counts, top.index, 0) == t.counts;
  }

  lemma GainKeepsInside(t: Tally, isKey: bool)
    requires TallyInside(t)
    ensures TallyInside(Gain(t, isKey)) && Gain(t, isKey).stack == t.stack
  {
  }

  lemma OpenStep(t: Tally, tree: Tree, isKey: bool)
    requires IsBranch(tree) && TallyInside(t)
    ensures var g := Gain(t, isKey);
      TallyStep(t, Opening(tree, isKey)) == Tally(t.stack + [Slot(|g.counts|, tree.Table?)], g.counts + [0])
  {
  }

  lemma CloseStep(stack: seq<Slot>, slot: Slot, counts: seq<nat>)
    ensures TallyStep(Tally(stack + [slot], counts), CLOSING) == Tally(stack, counts)
  {
  }

  lemma {:induction false} CoreTally(recs: seq<Record>, i: nat, tree: Tree, isKey: bool, t: Tally)
    requires Runs(recs, i, Core(tree, isKey)) && Shaped(tree) && TallyInside(t)
    ensures TallyRun(recs, i, i + |Core(tree, isKey)|, t) == Plus(Gain(t, isKey), TreeCounts(tree))
    decreases tree, 0
  {
    if IsBranch(tree) {
      BranchTally(recs, i, tree, isKey, t);
    } else {
      assert recs[i..i + 1][0] == recs[i];
      assert Plus(Gain(t, isKey), []) == Gain(t, isKey);
      assert TallyRun(recs, i, i + 1, t) == TallyStep(t, recs[i]);
    }
  }

  lemma OneRun(recs: seq<Record>, i: nat, r: Record, t: Tally)
    requires Runs(recs, i, [r])
    ensures TallyRun(recs, i, i + 1, t) == TallyStep(t, r)
  {
    assert recs[i..i + 1][0] == recs[i];
  }

  lemma {:induction false} BranchTally(recs: seq<Record>, i: nat, tree: Tree, isKey: bool, t: Tally)
    requires IsBranch(tree) && Runs(recs, i, Core(tree, isKey)) && Shaped(tree) && TallyInside(t)
    ensures TallyRun(recs, i, i + |Core(tree, isKey)|, t) == Plus(Gain(t, isKey), TreeCounts(tree))
    decreases tree, 0, |tree.kids| + 1
  {
    hide TallyRun, KidRecords, KidCounts, TreeCounts, Remaining, Gain, TallyStep, Shaped, Bump, AfterKid, Opening;
    var body := KidRecords(tree, 0);
    RunsSplit(recs, i, [Opening(tree, isKey)] + body, [CLOSING]);
    RunsSplit(recs, i, [Opening(tree, isKey)], body);
    var n := i + 1 + |body|;
    var g := Gain(t, isKey);
    GainKeepsInside(t, isKey);
    var slot := Slot(|g.counts|, tree.Table?);
    var open := Tally(t.stack + [slot], g.counts + [0]);
    OneRun(recs, i, Opening(tree, isKey), t);
    OpenStep(t, tree, isKey);
    KidsTally(recs, i + 1, tree, 0, open);
    BranchShape(tree);
    AfterBranch(t.stack, slot, g.counts, Announced(tree), KidCounts(tree, 0));
    OneRun(recs, n, CLOSING, TallyRun(recs, i + 1, n, open));
    CloseStep(t.stack, slot, g.counts + TreeCounts(tree));
    TallyJoin(recs, i, i + 1, n, t);
    TallyJoin(recs, i, n, n + 1, t);
    PlusIs(g, TreeCounts(tree));
  }

  lemma AfterBranch(stack: seq<Slot>, slot: Slot, counts: seq<nat>, n: nat, cs: seq<nat>)
    requires slot.index == |counts| && TallyInside(Tally(stack, counts))
    ensures TallyInside(Tally(stack + [slot], counts + [0]))
    ensures AfterKid(Tally(stack + [slot], counts + [0]), n, cs) == Tally(stack + [slot], counts + ([n] + cs))
  {
    BumpLast(counts, n, cs);
  }

  lemma PlusIs(t: Tally, cs: seq<nat>)
    ensures Plus(t, cs) == Tally(t.stack, t.counts + cs)
  {
  }

  lemma BranchShape(tree: Tree)
    requires IsBranch(tree) && Shaped(tree)
    ensures TreeCounts(tree) == [Announced(tree)] + KidCounts(tree, 0) && Remaining(tree, 0) == Announced(tree)
  {
  }

  /** How many of the kids from k on count for the branch. */
  function Remaining(t: Tree, k: nat): nat
    requires IsBranch(t) && k <= |t.kids|
  {
    if t.List? then |t.kids| - k else (|t.kids| - k) / 2
  }

  lemma RemainingStep(t: Tree, k: nat)
    requires IsBranch(t) && Shaped(t) && k < |t.kids|
    ensures Remaining(t, k) == Gained(t.Table?, KeySlot(t, k)) + Remaining(t, k + 1)
  {
  }

  lemma {:induction false} KidsTally(recs: seq<Record>, i: nat, tree: Tree, k: nat, t: Tally)
    requires IsBranch(tree) && k <= |tree.kids| && Runs(recs, i, KidRecords(tree, k)) && Shaped(tree)
    requires TallyInside(t) && t.stack != []
    requires t.stack[|t.stack| - 1].isMap == tree.Table?
    ensures TallyRun(recs, i, i + |KidRecords(tree, k)|, t) == AfterKid(t, Remaining(tree, k), KidCounts(tree, k))
    decreases tree, 0, |tree.kids| - k
  {
    hide TallyRun, Bump, Remaining, KidRecords, KidCounts, Gain, Records, TreeCounts, AfterKid, Shaped;
    if k < |tree.kids| {
      KidsShape(tree, k);
      var kid, key := tree.kids[k], KeySlot(tree, k);
      var one, rest := Records(kid, key), KidRecords(tree, k + 1);
      RunsSplit(recs, i, one, rest);
      TreeTally(recs, i, kid, key, t);
      var u := AfterKid(t, Gained(tree.Table?, key), TreeCounts(kid));
      assert TallyRun(recs, i, i + |one|, t) == u by { AfterOne(t, tree.Table?, key, TreeCounts(kid)); }
      RunsInside(recs, i + |one|, rest);
      KidsTally(recs, i + |one|, tree, k + 1, u);
      AfterKids(t, Gained(tree.Table?, key), TreeCounts(kid), Remaining(tree, k + 1), KidCounts(tree, k + 1));
      RemainingStep(tree, k);
      TallyJoin(recs, i, i + |one|, i + |one| + |rest|, t);
    } else {
      NoneLeft(recs, i, tree, t);
    }
  }

  lemma NoneLeft(recs: seq<Record>, i: nat, tree: Tree, t: Tally)
    requires IsBranch(tree) && TallyInside(t) && t.stack != [] && i <= |recs|
    ensures KidRecords(tree, |tree.kids|) == [] && TallyRun(recs, i, i, t) == t
    ensures AfterKid(t, Remaining(tree, |tree.kids|), KidCounts(tree, |tree.kids|)) == t
  {
    BumpNothing(t.counts, t.stack[|t.stack| - 1].index);
  }

  lemma RunsInside(recs: seq<Record>, i: nat, rs: seq<Record>)
    requires Runs(recs, i, rs)
    ensures i + |rs| <= |recs|
  {
  }

  lemma AfterOne(t: Tally, isMap: bool, isKey: bool, cs: seq<nat>)
    requires TallyInside(t) && t.stack != [] && t.stack[|t.stack| - 1].isMap == isMap
    ensures Plus(Gain(t, isKey), cs) == AfterKid(t, Gained(isMap, isKey), cs)
  {
    GainIsBump(t, isKey);
  }

  lemma KidsShape(t: Tree, k: nat)
    requires IsBranch(t) && k < |t.kids| && Shaped(t)
    ensures Shaped(t.kids[k])
    ensures KidRecords(t, k) == Records(t.kids[k], KeySlot(t, k)) + KidRecords(t, k + 1)
    ensures KidCounts(t, k) == TreeCounts(t.kids[k]) + KidCounts(t, k + 1)
  {
  }

  /** n more elements in the innermost container, and the counts of what was inside them. */
  function AfterKid(t: Tally, n: nat, cs: seq<nat>): (u: Tally)
    requires TallyInside(t) && t.stack != []
    ensures u.stack == t.stack && TallyInside(u)
  {
    var top := t.stack[|t.stack| - 1].index;
    Tally(t.stack, Bump(t.counts, top, n) + cs)
  }

  lemma AfterKids(t: Tally, n: nat, cs: seq<nat>, m: nat, ds: seq<nat>)
    requires TallyInside(t) && t.stack != []
    ensures AfterKid(AfterKid(t, n, cs), m, ds) == AfterKid(t, n + m, cs + ds)
  {
    BumpTwice(t.counts, t.stack[|t.stack| - 1].index, n, cs, m, ds);
  }

  /** The counting scan announces of every branch exactly the elements or pairs it has. */
  lemma CountsOfTree(tree: Tree)
    requires Shaped(tree)
    ensures Counts(Records(tree, false)) == TreeCounts(tree)
  {
    var recs := Records(tree, false);
    var t := Tally([], []);
    TalliedSplit(recs, 0, |recs|, t);
    TreeTally(recs, 0, tree, false, t);
  }
}
