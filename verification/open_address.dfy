/**
 * Linear probing: entries laid down one after another at the first empty slot from their home on. A probe meets
 * the matching entries in the order they were laid.
 */
module OpenAddress {

  datatype Cell<E> = Empty | Held(e: E)

  /** The next slot, round the end. */
  function Next(i: nat, n: nat): (r: nat)
    requires i < n
    ensures r < n
  {
    if i + 1 == n then 0 else i + 1
  }

  /** The slot d steps from i. */
  function Walk(i: nat, d: nat, n: nat): (r: nat)
    requires i < n
    ensures r < n
  {
    if d == 0 then i else Next(Walk(i, d - 1, n), n)
  }

  lemma {:induction false} WalkIs(i: nat, d: nat, n: nat)
    requires i < n && d <= n
    ensures Walk(i, d, n) == if i + d < n then i + d else i + d - n
  {
    if d > 0 { WalkIs(i, d - 1, n); }
  }

  /** Within one round every slot is met, each once. */
  lemma WalkMeets(i: nat, s: nat, n: nat) returns (d: nat)
    requires i < n && s < n
    ensures d < n && Walk(i, d, n) == s
  {
    d := if s >= i then s - i else s - i + n;
    WalkIs(i, d, n);
  }

  /** Where each laid entry sits and how far from home. */
  datatype Layout<E> = Layout(log: seq<E>, at: seq<nat>, far: seq<nat>)

  /** Some entry before k sits in slot s. */
  ghost predicate Before<E>(lay: Layout<E>, k: nat, s: nat)
    requires k <= |lay.at|
  {
    exists j :: 0 <= j < k && lay.at[j] == s
  }

  /** Entry k is in its slot, and every slot from its home up to there was taken before it. */
  ghost predicate Sits<E>(slots: seq<Cell<E>>, home: E -> nat, lay: Layout<E>, k: nat)
    requires k < |lay.log| == |lay.at| == |lay.far|
  {
    var h, n := home(lay.log[k]), |slots|;
    && h < n && lay.far[k] < n && lay.at[k] == Walk(h, lay.far[k], n)
    && slots[lay.at[k]] == Held(lay.log[k])
    && forall d :: 0 <= d < lay.far[k] ==> Before(lay, k, Walk(h, d, n))
  }

  /** The slots hold exactly the entries of the log. */
  ghost predicate Laid<E>(slots: seq<Cell<E>>, home: E -> nat, lay: Layout<E>) {
    && |lay.log| == |lay.at| == |lay.far|
    && (forall k :: 0 <= k < |lay.log| ==> Sits(slots, home, lay, k))
    && (forall s :: 0 <= s < |slots| && slots[s].Held? ==> Before(lay, |lay.at|, s))
    && (forall j, k :: 0 <= j < k < |lay.at| ==> lay.at[j] != lay.at[k])
  }

  // ---- laying ---------------------------------------------------------------------

  function Clear<E>(n: nat): (s: seq<Cell<E>>)
    ensures |s| == n && forall k :: 0 <= k < n ==> s[k] == Empty
  {
    seq(n, k => Empty)
  }

  lemma ClearIsLaid<E>(n: nat, home: E -> nat)
    ensures Laid(Clear(n), home, Layout([], [], []))
  {
  }

  function Extend<E>(lay: Layout<E>, e: E, s: nat, d: nat): Layout<E> {
    Layout(lay.log + [e], lay.at + [s], lay.far + [d])
  }

  lemma BeforeExtends<E>(lay: Layout<E>, e: E, at: nat, far: nat, k: nat, s: nat)
    requires k <= |lay.at| && Before(lay, k, s)
    ensures Before(Extend(lay, e, at, far), k, s)
  {
    var j :| 0 <= j < k && lay.at[j] == s;
    assert Extend(lay, e, at, far).at[j] == s;
  }

  /** Laying an entry at the first empty slot from its home keeps the layout. */
  lemma LayOne<E>(slots: seq<Cell<E>>, home: E -> nat, lay: Layout<E>, e: E, d: nat)
    requires Laid(slots, home, lay) && home(e) < |slots| && d < |slots|
    requires forall j :: 0 <= j < d ==> slots[Walk(home(e), j, |slots|)].Held?
    requires slots[Walk(home(e), d, |slots|)].Empty?
    ensures var s := Walk(home(e), d, |slots|);
      Laid(slots[s := Held(e)], home, Extend(lay, e, s, d))
  {
    var n, s := |slots|, Walk(home(e), d, |slots|);
    var slots1, lay1 := slots[s := Held(e)], Extend(lay, e, s, d);
    hide Walk;
    forall k | 0 <= k < |lay1.log| ensures Sits(slots1, home, lay1, k) {
      if k < |lay.log| {
        KeepsSitting(slots, home, lay, e, s, d, k);
      } else {
        forall j | 0 <= j < d ensures Before(lay1, k, Walk(home(e), j, n)) {
          BeforeExtends(lay, e, s, d, |lay.at|, Walk(home(e), j, n));
        }
      }
    }
    forall x | 0 <= x < n && slots1[x].Held? ensures Before(lay1, |lay1.at|, x) {
      if x == s { assert lay1.at[|lay.at|] == s; } else { BeforeExtends(lay, e, s, d, |lay.at|, x); BeforeLater(lay1, |lay.at|, |lay1.at|, x); }
    }
    forall j, k | 0 <= j < k < |lay1.at| ensures lay1.at[j] != lay1.at[k] {
      if k == |lay.at| { assert Sits(slots, home, lay, j); }
    }
  }

  lemma BeforeLater<E>(lay: Layout<E>, a: nat, b: nat, s: nat)
    requires a <= b <= |lay.at| && Before(lay, a, s)
    ensures Before(lay, b, s)
  {
    var j :| 0 <= j < a && lay.at[j] == s;
  }

  lemma KeepsSitting<E>(slots: seq<Cell<E>>, home: E -> nat, lay: Layout<E>, e: E, s: nat, d: nat, k: nat)
    requires Laid(slots, home, lay) && s < |slots| && slots[s].Empty? && k < |lay.log|
    ensures |lay.log| == |lay.at| == |lay.far| && Sits(slots[s := Held(e)], home, Extend(lay, e, s, d), k)
  {
    var n, h := |slots|, home(lay.log[k]);
    hide Walk;
    assert Sits(slots, home, lay, k);
    forall j | 0 <= j < lay.far[k] ensures Before(Extend(lay, e, s, d), k, Walk(h, j, n)) {
      BeforeExtends(lay, e, s, d, k, Walk(h, j, n));
    }
  }

  // ---- probing ------------------------------------------------------------------------

  /** How far a probe from i goes: to the first empty or matching slot, or round once. */
  function Probe<E>(slots: seq<Cell<E>>, i: nat, hit: E -> bool, d: nat): (r: nat)
    requires i < |slots| && d <= |slots|
    ensures d <= r <= |slots|
    ensures r < |slots| ==> var c := slots[Walk(i, r, |slots|)]; c.Empty? || hit(c.e)
    ensures forall j :: d <= j < r ==> var c := slots[Walk(i, j, |slots|)]; c.Held? && !hit(c.e)
    decreases |slots| - d
  {
    if d == |slots| then d
    else
      var c := slots[Walk(i, d, |slots|)];
      if c.Empty? || hit(c.e) then d else Probe(slots, i, hit, d + 1)
  }

  /** The entry a lookup ends on. */
  function Found<E>(slots: seq<Cell<E>>, i: nat, hit: E -> bool): Cell<E>
    requires i < |slots|
  {
    var d := Probe(slots, i, hit, 0);
    if d == |slots| then Empty else slots[Walk(i, d, |slots|)]
  }

  /** The first entry of the log that matches. */
  function FirstMatch<E>(log: seq<E>, hit: E -> bool): (c: Cell<E>)
    ensures c.Empty? <==> forall k :: 0 <= k < |log| ==> !hit(log[k])
    ensures c.Held? ==> hit(c.e) && c.e in log
  {
    if log == [] then Empty else if hit(log[0]) then Held(log[0]) else FirstMatch(log[1..], hit)
  }

  lemma {:induction false} FirstMatchAt<E>(log: seq<E>, hit: E -> bool, k: nat)
    requires k < |log| && hit(log[k]) && forall j :: 0 <= j < k ==> !hit(log[j])
    ensures FirstMatch(log, hit) == Held(log[k])
  {
    if k > 0 {
      assert !hit(log[0]);
      FirstMatchAt(log[1..], hit, k - 1);
    }
  }

  /** A lookup from the home all matches share ends on the first match of the log. */
  lemma LookupIsFirst<E>(slots: seq<Cell<E>>, home: E -> nat, lay: Layout<E>, i: nat, hit: E -> bool)
    requires Laid(slots, home, lay) && i < |slots|
    requires forall k :: 0 <= k < |lay.log| && hit(lay.log[k]) ==> home(lay.log[k]) == i
    ensures Found(slots, i, hit) == FirstMatch(lay.log, hit)
  {
    hide Walk, FirstMatch;
    var d, n := Probe(slots, i, hit, 0), |slots|;
    if FirstMatch(lay.log, hit).Held? {
      var k := FirstIndex(lay.log, hit);
      FirstMatchAt(lay.log, hit, k);
      assert Sits(slots, home, lay, k);
      forall j | 0 <= j < lay.far[k] ensures !Stops(slots, i, hit, j) {
        if Stops(slots, i, hit, j) { NoStopBefore(slots, home, lay, i, hit, k, j); }
      }
      assert Stops(slots, i, hit, lay.far[k]);
      assert d <= lay.far[k];
      assert Stops(slots, i, hit, d);
    } else if d < n && slots[Walk(i, d, n)].Held? {
      var k := Logged(slots, home, lay, Walk(i, d, n));
    }
  }

  lemma Logged<E>(slots: seq<Cell<E>>, home: E -> nat, lay: Layout<E>, s: nat) returns (k: nat)
    requires Laid(slots, home, lay) && s < |slots| && slots[s].Held?
    ensures k < |lay.log| && slots[s] == Held(lay.log[k])
  {
    assert Before(lay, |lay.at|, s);
    k :| 0 <= k < |lay.at| && lay.at[k] == s;
    assert Sits(slots, home, lay, k);
  }

  /** A probe from i stops d steps on. */
  predicate Stops<E>(slots: seq<Cell<E>>, i: nat, hit: E -> bool, d: nat)
    requires i < |slots|
  {
    var c := slots[Walk(i, d, |slots|)];
    c.Empty? || hit(c.e)
  }

  lemma FirstIndex<E>(log: seq<E>, hit: E -> bool) returns (k: nat)
    requires FirstMatch(log, hit).Held?
    ensures k < |log| && hit(log[k]) && forall j :: 0 <= j < k ==> !hit(log[j])
  {
    k := 0;
    while !hit(log[k])
      invariant k < |log| && (forall j :: 0 <= j < k ==> !hit(log[j]))
      invariant exists j :: k <= j < |log| && hit(log[j])
      decreases |log| - k
    {
      k := k + 1;
    }
  }

  lemma NoStopBefore<E>(slots: seq<Cell<E>>, home: E -> nat, lay: Layout<E>, i: nat, hit: E -> bool, k: nat, j: nat)
    requires Laid(slots, home, lay) && k < |lay.log| && hit(lay.log[k]) && home(lay.log[k]) == i < |slots|
    requires |lay.far| == |lay.log| && j < lay.far[k] && Stops(slots, i, hit, j)
    requires forall m :: 0 <= m < k ==> !hit(lay.log[m])
    ensures false
  {
    hide Walk;
    var s := Walk(i, j, |slots|);
    assert Sits(slots, home, lay, k);
    assert Before(lay, k, s);
    var m :| 0 <= m < k && lay.at[m] == s;
    assert Sits(slots, home, lay, m);
  }

  // ---- room ----------------------------------------------------------------------------

  /** With fewer entries than slots some slot is empty, so every probe ends within one round. */
  lemma SomeEmpty<E>(slots: seq<Cell<E>>, home: E -> nat, lay: Layout<E>) returns (s: nat)
    requires Laid(slots, home, lay) && |lay.log| < |slots|
    ensures s < |slots| && slots[s].Empty?
  {
    if forall x :: 0 <= x < |slots| ==> slots[x].Held? {
      forall x: nat | x < |slots| ensures x in lay.at { assert Before(lay, |lay.at|, x); }
      Pigeons(lay.at, |slots|);
    }
    s :| 0 <= s < |slots| && slots[s].Empty?;
  }

  /** All n numbers below n cannot occur in fewer than n places. */
  lemma {:induction false} Pigeons(at: seq<nat>, n: nat)
    requires forall x: nat :: x < n ==> x in at
    ensures |at| >= n
  {
    if n > 0 {
      var last: nat := n - 1;
      assert last in at;
      var k :| 0 <= k < |at| && at[k] == last;
      var rest := at[..k] + at[k + 1..];
      forall x: nat | x < last ensures x in rest {
        assert x in at;
        var j :| 0 <= j < |at| && at[j] == x;
        assert if j < k then rest[j] == x else rest[j - 1] == x;
      }
      Pigeons(rest, last);
    }
  }

  /** A probe ends on an empty or matching slot before it is round. */
  lemma ProbeEnds<E>(slots: seq<Cell<E>>, home: E -> nat, lay: Layout<E>, i: nat, hit: E -> bool)
    requires Laid(slots, home, lay) && |lay.log| < |slots| && i < |slots|
    ensures Probe(slots, i, hit, 0) < |slots|
  {
    var s := SomeEmpty(slots, home, lay);
    var d := WalkMeets(i, s, |slots|);
    hide Walk, Laid;
    assert slots[Walk(i, d, |slots|)].Empty?;
  }

  // ---- laying again -----------------------------------------------------------------------

  /** The entries in the first i slots, in slot order. */
  function HeldOf<E>(slots: seq<Cell<E>>, i: nat): seq<E>
    requires i <= |slots|
  {
    if i == 0 then [] else HeldOf(slots, i - 1) + if slots[i - 1].Held? then [slots[i - 1].e] else []
  }

  function HeldAt<E>(slots: seq<Cell<E>>, i: nat): (s: set<nat>)
    requires i <= |slots|
    ensures forall x: nat :: x in s <==> x < i && slots[x].Held?
  {
    if i == 0 then {} else HeldAt(slots, i - 1) + if slots[i - 1].Held? then {i - 1} else {}
  }

  lemma {:induction false} HeldCount<E>(slots: seq<Cell<E>>, i: nat)
    requires i <= |slots|
    ensures |HeldOf(slots, i)| == |HeldAt(slots, i)|
  {
    if i > 0 { HeldCount(slots, i - 1); }
  }

  lemma {:induction false} HeldHas<E>(slots: seq<Cell<E>>, i: nat, e: E)
    requires i <= |slots|
    ensures e in HeldOf(slots, i) <==> exists s :: 0 <= s < i && slots[s] == Held(e)
  {
    if i > 0 { HeldHas(slots, i - 1, e); }
  }

  function Places(at: seq<nat>): (s: set<nat>)
    ensures forall x: nat :: x in s <==> x in at
  {
    if at == [] then {} else Places(at[..|at| - 1]) + {at[|at| - 1]}
  }

  lemma {:induction false} PlacesCount(at: seq<nat>)
    requires forall j, k :: 0 <= j < k < |at| ==> at[j] != at[k]
    ensures |Places(at)| == |at|
  {
    if at != [] { PlacesCount(at[..|at| - 1]); }
  }

  /** The slots hold the entries of the log, no more and no fewer. */
  lemma HeldIsLog<E>(slots: seq<Cell<E>>, home: E -> nat, lay: Layout<E>)
    requires Laid(slots, home, lay)
    ensures |HeldOf(slots, |slots|)| == |lay.log|
    ensures forall e :: e in HeldOf(slots, |slots|) <==> e in lay.log
  {
    HeldSize(slots, home, lay);
    forall e ensures e in HeldOf(slots, |slots|) <==> e in lay.log { HeldSame(slots, home, lay, e); }
  }

  lemma HeldSize<E>(slots: seq<Cell<E>>, home: E -> nat, lay: Layout<E>)
    requires Laid(slots, home, lay)
    ensures |HeldOf(slots, |slots|)| == |lay.log|
  {
    var n := |slots|;
    forall x: nat ensures x in HeldAt(slots, n) <==> x in lay.at { HeldPlace(slots, home, lay, x); }
    hide Laid;
    assert HeldAt(slots, n) == Places(lay.at);
    LaidDistinct(slots, home, lay);
    PlacesCount(lay.at);
    HeldCount(slots, n);
  }

  lemma LaidDistinct<E>(slots: seq<Cell<E>>, home: E -> nat, lay: Layout<E>)
    requires Laid(slots, home, lay)
    ensures |lay.at| == |lay.log| && forall j, k :: 0 <= j < k < |lay.at| ==> lay.at[j] != lay.at[k]
  {
  }

  lemma HeldPlace<E>(slots: seq<Cell<E>>, home: E -> nat, lay: Layout<E>, x: nat)
    requires Laid(slots, home, lay)
    ensures x in HeldAt(slots, |slots|) <==> x in lay.at
  {
    if x in HeldAt(slots, |slots|) { assert Before(lay, |lay.at|, x); }
    if x in lay.at {
      var k :| 0 <= k < |lay.at| && lay.at[k] == x;
      assert Sits(slots, home, lay, k);
    }
  }

  lemma HeldSame<E>(slots: seq<Cell<E>>, home: E -> nat, lay: Layout<E>, e: E)
    requires Laid(slots, home, lay)
    ensures e in HeldOf(slots, |slots|) <==> e in lay.log
  {
    HeldHas(slots, |slots|, e);
    if e in lay.log {
      var k :| 0 <= k < |lay.log| && lay.log[k] == e;
      assert Sits(slots, home, lay, k);
      assert slots[lay.at[k]] == Held(e);
    }
    if e in HeldOf(slots, |slots|) {
      var s :| 0 <= s < |slots| && slots[s] == Held(e);
      var k := Logged(slots, home, lay, s);
    }
  }

  lemma {:induction false} HeldGrows<E>(slots: seq<Cell<E>>, i: nat, j: nat)
    requires i <= j <= |slots|
    ensures |HeldOf(slots, i)| <= |HeldOf(slots, j)|
  {
    if i < j { HeldGrows(slots, i, j - 1); }
  }

  /** A home function that agrees on the entries laid serves as well. */
  lemma SameHomes<E>(slots: seq<Cell<E>>, home: E -> nat, other: E -> nat, lay: Layout<E>)
    requires Laid(slots, home, lay) && forall k :: 0 <= k < |lay.log| ==> other(lay.log[k]) == home(lay.log[k])
    ensures Laid(slots, other, lay)
  {
    forall k | 0 <= k < |lay.log| ensures Sits(slots, other, lay, k) { assert Sits(slots, home, lay, k); }
  }

  /** An entry may be rewritten in its slot while its home stays. */
  lemma Rewrite<E>(slots: seq<Cell<E>>, home: E -> nat, lay: Layout<E>, k: nat, e: E)
    requires Laid(slots, home, lay) && k < |lay.log| && home(e) == home(lay.log[k])
    ensures |lay.at| == |lay.log| && lay.at[k] < |slots|
    ensures Laid(slots[lay.at[k] := Held(e)], home, lay.(log := lay.log[k := e]))
  {
    assert Sits(slots, home, lay, k);
    var slots1, lay1 := slots[lay.at[k] := Held(e)], lay.(log := lay.log[k := e]);
    hide Walk;
    forall j | 0 <= j < |lay1.log| ensures Sits(slots1, home, lay1, j) {
      assert Sits(slots, home, lay, j);
      forall d | 0 <= d < lay1.far[j] ensures Before(lay1, j, Walk(home(lay1.log[j]), d, |slots1|)) {
        assert Before(lay, j, Walk(home(lay.log[j]), d, |slots|));
      }
    }
    forall s | 0 <= s < |slots1| && slots1[s].Held? ensures Before(lay1, |lay1.at|, s) {
      if s != lay.at[k] { assert Before(lay, |lay.at|, s); } else { assert lay1.at[k] == s; }
    }
  }

  /** The number in the log of the entry in slot s. */
  lemma LoggedAt<E>(slots: seq<Cell<E>>, home: E -> nat, lay: Layout<E>, s: nat) returns (k: nat)
    requires Laid(slots, home, lay) && s < |slots| && slots[s].Held?
    ensures k < |lay.log| == |lay.at| && lay.at[k] == s && slots[s] == Held(lay.log[k])
  {
    assert Before(lay, |lay.at|, s);
    k :| 0 <= k < |lay.at| && lay.at[k] == s;
    assert Sits(slots, home, lay, k);
  }

  /** A probe that starts on an empty slot finds nothing. */
  lemma StartsEmpty<E>(slots: seq<Cell<E>>, i: nat, hit: E -> bool)
    requires i < |slots| && slots[i].Empty?
    ensures Found(slots, i, hit) == Empty
  {
    assert Walk(i, 0, |slots|) == i;
  }

  /** A probe that starts on a match ends there. */
  lemma StartsHere<E>(slots: seq<Cell<E>>, i: nat, hit: E -> bool)
    requires i < |slots| && slots[i].Held? && hit(slots[i].e)
    ensures Found(slots, i, hit) == slots[i]
  {
    assert Walk(i, 0, |slots|) == i;
  }

  /** The home of an entry laid is taken, by it or by another. */
  lemma HomeIsTaken<E>(slots: seq<Cell<E>>, home: E -> nat, lay: Layout<E>, k: nat)
    requires Laid(slots, home, lay) && k < |lay.log|
    ensures home(lay.log[k]) < |slots| && slots[home(lay.log[k])].Held?
  {
    assert Sits(slots, home, lay, k);
    var h := home(lay.log[k]);
    assert Walk(h, 0, |slots|) == h;
    if lay.far[k] > 0 {
      assert Before(lay, k, Walk(h, 0, |slots|));
      var j :| 0 <= j < k && lay.at[j] == h;
      assert Sits(slots, home, lay, j);
    }
  }

  /** Every entry of the log is in some slot. */
  lemma SlotOf<E>(slots: seq<Cell<E>>, home: E -> nat, lay: Layout<E>, k: nat) returns (s: nat)
    requires Laid(slots, home, lay) && k < |lay.log|
    ensures s < |slots| && slots[s] == Held(lay.log[k])
  {
    assert Sits(slots, home, lay, k);
    s := lay.at[k];
  }
}
