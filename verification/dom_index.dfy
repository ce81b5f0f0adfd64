/** The lazy key index of a mapping: a table of its scalar keys, agreeing with a scan of the chain. */
module DomIndex {
  import opened Wrappers
  import opened DomStore
  import opened DomForest
  import OpenAddress

  type Text = seq<int>

  /** A key in the table: the hash of its text and its node. */
  datatype Entry = Entry(hash: nat, id: nat)
  type Slots = seq<OpenAddress.Cell<Entry>>
  type Lay = OpenAddress.Layout<Entry>

  predicate Inside(nodes: seq<Node>, ch: seq<nat>) { forall i :: 0 <= i < |ch| ==> ch[i] < |nodes| }

  predicate IsKey(nodes: seq<Node>, ch: seq<nat>, i: nat)
    requires Inside(nodes, ch) && i < |ch|
  {
    i % 2 == 0 && nodes[ch[i]].data.scalar
  }

  /** The scan the API falls back to: the first scalar key of that text, from position i on. */
  function Scan(nodes: seq<Node>, ch: seq<nat>, key: Text, i: nat): (r: Option<nat>)
    requires Inside(nodes, ch) && i <= |ch|
    decreases |ch| - i
  {
    if i == |ch| then None
    else if IsKey(nodes, ch, i) && nodes[ch[i]].data.text == key then Some(ch[i])
    else Scan(nodes, ch, key, i + 1)
  }

  /** Place k holds a scalar key of that text, and no place from i on in front of it does. */
  predicate FirstKey(nodes: seq<Node>, ch: seq<nat>, key: Text, i: nat, k: nat)
    requires Inside(nodes, ch)
  {
    i <= k < |ch| && HasKey(nodes, ch, key, k) && forall j :: i <= j < k ==> !HasKey(nodes, ch, key, j)
  }

  predicate HasKey(nodes: seq<Node>, ch: seq<nat>, key: Text, k: nat)
    requires Inside(nodes, ch) && k < |ch|
  {
    k % 2 == 0 && nodes[ch[k]].data.scalar && nodes[ch[k]].data.text == key
  }

  /** The scan ends on the first scalar key of that text, and on nothing only where there is none. */
  lemma {:induction false} ScanExactly(nodes: seq<Node>, ch: seq<nat>, key: Text, i: nat)
    requires Inside(nodes, ch) && i <= |ch|
    ensures Scan(nodes, ch, key, i).Some? ==> exists k :: i <= k < |ch| && FirstKey(nodes, ch, key, i, k) && Scan(nodes, ch, key, i) == Some(ch[k])
    ensures Scan(nodes, ch, key, i).None? ==> forall k :: i <= k < |ch| ==> !HasKey(nodes, ch, key, k)
    decreases |ch| - i
  {
    if i < |ch| {
      if HasKey(nodes, ch, key, i) {
        assert FirstKey(nodes, ch, key, i, i);
      } else {
        ScanExactly(nodes, ch, key, i + 1);
        if Scan(nodes, ch, key, i + 1).Some? {
          var k :| i + 1 <= k < |ch| && FirstKey(nodes, ch, key, i + 1, k) && Scan(nodes, ch, key, i + 1) == Some(ch[k]);
          assert FirstKey(nodes, ch, key, i, k);
        }
      }
    }
  }

  /** The entries of the chain's first i nodes, in chain order. */
  function Entries(nodes: seq<Node>, ch: seq<nat>, hash: Text -> nat, i: nat): seq<Entry>
    requires Inside(nodes, ch) && i <= |ch|
  {
    if i == 0 then []
    else
      Entries(nodes, ch, hash, i - 1)
      + if IsKey(nodes, ch, i - 1) then [Entry(hash(nodes[ch[i - 1]].data.text), ch[i - 1])] else []
  }

  function Home(n: nat): Entry -> nat
    requires n > 0
  {
    (e: Entry) => e.hash % n
  }

  /** Slots hold the chain's keys, laid in chain order, with room to spare. */
  ghost predicate TableOf(nodes: seq<Node>, ch: seq<nat>, hash: Text -> nat, slots: Slots, lay: Lay) {
    && Inside(nodes, ch) && |slots| > |lay.log| && lay.log == Entries(nodes, ch, hash, |ch|)
    && OpenAddress.Laid(slots, Home(|slots|), lay)
  }

  /** tab_cap_for: a power of two, at least twice the pairs. */
  method TabCap(pairs: nat) returns (cap: nat)
    ensures cap >= 8 && cap >= 2 * pairs
  {
    cap := 8;
    while cap < pairs * 2
      invariant cap >= 8
      decreases pairs * 2 - cap
    {
      cap := cap * 2;
    }
  }

  lemma {:induction false} FewEntries(nodes: seq<Node>, ch: seq<nat>, hash: Text -> nat, i: nat)
    requires Inside(nodes, ch) && i <= |ch|
    ensures 2 * |Entries(nodes, ch, hash, i)| <= i + 1
    ensures i % 2 == 0 ==> 2 * |Entries(nodes, ch, hash, i)| <= i
  {
    if i > 0 { FewEntries(nodes, ch, hash, i - 1); }
  }

  /** The slot an entry goes to: the first empty one from its home. */
  method Seat(slots: array<OpenAddress.Cell<Entry>>, h: nat, ghost lay: Lay) returns (s: nat, ghost d: nat)
    requires slots.Length > |lay.log| && OpenAddress.Laid(slots[..], Home(slots.Length), lay)
    ensures d < slots.Length && s == OpenAddress.Walk(h % slots.Length, d, slots.Length) && slots[s].Empty?
    ensures forall j :: 0 <= j < d ==> slots[OpenAddress.Walk(h % slots.Length, j, slots.Length)].Held?
  {
    var n := slots.Length;
    s, d := h % n, 0;
    OpenAddress.ProbeEnds(slots[..], Home(n), lay, h % n, e => false);
    ghost var stop := OpenAddress.Probe(slots[..], h % n, e => false, 0);
    assert slots[..][OpenAddress.Walk(h % n, stop, n)].Empty?;
    while slots[s].Held?
      invariant d <= stop && s == OpenAddress.Walk(h % n, d, n)
      invariant forall j :: 0 <= j < d ==> slots[OpenAddress.Walk(h % n, j, n)].Held?
      decreases stop - d
    {
      s := OpenAddress.Next(s, n);
      d := d + 1;
    }
  }

  /** The entry takes its slot. */
  method Settle(slots: array<OpenAddress.Cell<Entry>>, h: nat, id: nat, ghost lay: Lay) returns (ghost next: Lay)
    requires slots.Length > |lay.log| && OpenAddress.Laid(slots[..], Home(slots.Length), lay)
    modifies slots
    ensures OpenAddress.Laid(slots[..], Home(slots.Length), next) && next.log == lay.log + [Entry(h, id)]
  {
    hide OpenAddress.Laid;
    var s; ghost var d;
    s, d := Seat(slots, h, lay);
    OpenAddress.LayOne(slots[..], Home(slots.Length), lay, Entry(h, id), d);
    ghost var was := slots[..];
    next := OpenAddress.Extend(lay, Entry(h, id), s, d);
    slots[s] := OpenAddress.Held(Entry(h, id));
    assert slots[..] == was[s := OpenAddress.Held(Entry(h, id))];
  }

  lemma {:induction false} EntriesSame(nodes: seq<Node>, after: seq<Node>, ch: seq<nat>, hash: Text -> nat, i: nat)
    requires Inside(nodes, ch) && Inside(after, ch) && i <= |ch|
    requires forall n :: 0 <= n < |nodes| && n < |after| ==> after[n].data == nodes[n].data
    ensures Entries(after, ch, hash, i) == Entries(nodes, ch, hash, i)
  {
    if i > 0 { EntriesSame(nodes, after, ch, hash, i - 1); }
  }

  /** An entry of that key. */
  function Hit(nodes: seq<Node>, h: nat, key: Text): Entry -> bool {
    (e: Entry) => e.hash == h && e.id < |nodes| && nodes[e.id].data.text == key
  }

  function KeyOf(c: OpenAddress.Cell<Entry>): Option<nat> {
    match c
    case Empty => None
    case Held(e) => Some(e.id)
  }

  lemma {:induction false} FirstOfBoth(a: seq<Entry>, b: seq<Entry>, hit: Entry -> bool)
    ensures OpenAddress.FirstMatch(a + b, hit)
         == if OpenAddress.FirstMatch(a, hit).Held? then OpenAddress.FirstMatch(a, hit) else OpenAddress.FirstMatch(b, hit)
  {
    if a == [] {
      assert a + b == b;
    } else {
      assert (a + b)[1..] == a[1..] + b;
      FirstOfBoth(a[1..], b, hit);
    }
  }

  /** Matching the entries in order is scanning the chain. */
  lemma {:induction false} ScanIsMatch(nodes: seq<Node>, ch: seq<nat>, hash: Text -> nat, key: Text, i: nat)
    requires Inside(nodes, ch) && i <= |ch|
    ensures var first := OpenAddress.FirstMatch(Entries(nodes, ch, hash, i), Hit(nodes, hash(key), key));
      Scan(nodes, ch, key, 0) == if first.Held? then Some(first.e.id) else Scan(nodes, ch, key, i)
  {
    if i > 0 {
      ScanIsMatch(nodes, ch, hash, key, i - 1);
      var one := if IsKey(nodes, ch, i - 1) then [Entry(hash(nodes[ch[i - 1]].data.text), ch[i - 1])] else [];
      var hit := Hit(nodes, hash(key), key);
      FirstOfBoth(Entries(nodes, ch, hash, i - 1), one, hit);
      if one != [] { assert one[1..] == [] && OpenAddress.FirstMatch(one[1..], hit).Empty?; }
    }
  }

  /** What a lookup in the table ends on is what the scan finds. */
  lemma TableIsScan(nodes: seq<Node>, ch: seq<nat>, hash: Text -> nat, slots: Slots, lay: Lay, key: Text)
    requires TableOf(nodes, ch, hash, slots, lay)
    ensures KeyOf(OpenAddress.Found(slots, hash(key) % |slots|, Hit(nodes, hash(key), key))) == Scan(nodes, ch, key, 0)
    ensures OpenAddress.Probe(slots, hash(key) % |slots|, Hit(nodes, hash(key), key), 0) < |slots|
  {
    hide OpenAddress.Laid, OpenAddress.Found, OpenAddress.FirstMatch, Entries, Scan;
    var hit := Hit(nodes, hash(key), key);
    OpenAddress.LookupIsFirst(slots, Home(|slots|), lay, hash(key) % |slots|, hit);
    OpenAddress.ProbeEnds(slots, Home(|slots|), lay, hash(key) % |slots|, hit);
    ScanIsMatch(nodes, ch, hash, key, |ch|);
    ScanEnd(nodes, ch, key);
  }

  lemma ScanEnd(nodes: seq<Node>, ch: seq<nat>, key: Text)
    requires Inside(nodes, ch)
    ensures Scan(nodes, ch, key, |ch|) == None
  {
  }
}
