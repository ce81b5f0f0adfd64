/** The strict duplicate-key scan: one set of seen keys per open container. */
module DupScan {
  import opened Bytes
  import opened MarshalWrite
  import OpenAddress

  // ---- keys ------------------------------------------------------------------------------

  predicate Spanned(k: Kind) { k.Str? || k.Timestamp? || k.Alias? || k.Anchor? }

  /** What a key is known by. The payload 0 stands for an empty slot, so it is stored as 1. */
  datatype DupKey = DupKey(kind: Kind, b: bool, p: int, text: seq<byte>)

  function KeyOf(r: Record): DupKey {
    DupKey(r.kind, r.b, if r.p == 0 then 1 else r.p, if Spanned(r.kind) then r.text else [])
  }

  /** Two records are the same key as the host sees it. */
  predicate SameKey(a: Record, b: Record) {
    a.kind == b.kind && a.b == b.b && a.p == b.p && (Spanned(a.kind) ==> a.text == b.text)
  }

  /** The scan's identity is the host's, except that integers 0 and 1, and other payloads 0 and 1, are taken for one key. */
  lemma KeysExactly(a: Record, b: Record)
    ensures KeyOf(a) == KeyOf(b) <==>
            SameKey(a, b) || (SameKey(a, b.(p := a.p)) && a.p in {0, 1} && b.p in {0, 1})
  {
  }

  /** String keys carry no payload: they are the same key exactly when text and plainness agree. */
  lemma StringKeys(a: Record, b: Record)
    requires a.kind.Str? && b.kind.Str? && a.p == 0 && b.p == 0
    ensures KeyOf(a) == KeyOf(b) <==> a.text == b.text && a.b == b.b
  {
  }

  // ---- the set -------------------------------------------------------------------------------

  function Home(hash: DupKey -> nat, n: nat): DupKey -> nat
    requires n > 0
  {
    (k: DupKey) => hash(k) % n
  }

  function Is(k: DupKey): DupKey -> bool { (e: DupKey) => e == k }

  /** An open-addressing set; at most half the slots are taken. */
  class DupSet {
    const hash: DupKey -> nat
    var slots: array<OpenAddress.Cell<DupKey>>
    var count: nat
    ghost var lay: OpenAddress.Layout<DupKey>

    ghost predicate Valid()
      reads this, slots
    {
      && |lay.log| == count && 2 * count <= slots.Length
      && (slots.Length > 0 ==> OpenAddress.Laid(slots[..], Home(hash, slots.Length), lay))
    }

    ghost predicate Has(k: DupKey)
      reads this
    {
      k in lay.log
    }

    constructor (hash: DupKey -> nat)
      ensures Valid() && lay.log == [] && this.hash == hash && fresh(slots)
    {
      this.hash, count := hash, 0;
      slots := new OpenAddress.Cell<DupKey>[0];
      lay := OpenAddress.Layout([], [], []);
    }

    /** The first slot from the key's home that is empty or holds the key. */
    method Probe(t: array<OpenAddress.Cell<DupKey>>, k: DupKey, ghost on: OpenAddress.Layout<DupKey>) returns (s: nat, ghost d: nat)
      requires t.Length > |on.log| && OpenAddress.Laid(t[..], Home(hash, t.Length), on)
      ensures d < t.Length && s == OpenAddress.Walk(hash(k) % t.Length, d, t.Length)
      ensures d == OpenAddress.Probe(t[..], hash(k) % t.Length, Is(k), 0)
    {
      var n, i := t.Length, hash(k) % t.Length;
      hide OpenAddress.Laid;
      OpenAddress.ProbeEnds(t[..], Home(hash, n), on, i, Is(k));
      ghost var stop := OpenAddress.Probe(t[..], i, Is(k), 0);
      s, d := i, 0;
      while t[s].Held? && t[s].e != k
        invariant d <= stop && s == OpenAddress.Walk(i, d, n)
        decreases stop - d
      {
        assert t[..][OpenAddress.Walk(i, d, n)] == t[s];
        s := OpenAddress.Next(s, n);
        d := d + 1;
      }
      assert t[..][OpenAddress.Walk(i, d, n)] == t[s];
    }

    /** The key takes the empty slot its probe ended on. */
    method Seat(t: array<OpenAddress.Cell<DupKey>>, s: nat, k: DupKey, ghost d: nat, ghost on: OpenAddress.Layout<DupKey>,
                ghost hit: DupKey -> bool)
      returns (ghost next: OpenAddress.Layout<DupKey>)
      requires t.Length > 0 && OpenAddress.Laid(t[..], Home(hash, t.Length), on)
      requires d < t.Length && s == OpenAddress.Walk(hash(k) % t.Length, d, t.Length) && t[s].Empty?
      requires d == OpenAddress.Probe(t[..], hash(k) % t.Length, hit, 0)
      modifies t
      ensures OpenAddress.Laid(t[..], Home(hash, t.Length), next) && next.log == on.log + [k]
      ensures t[..] == old(t[..])[s := OpenAddress.Held(k)]
    {
      hide OpenAddress.Laid;
      OpenAddress.LayOne(t[..], Home(hash, t.Length), on, k, d);
      next := OpenAddress.Extend(on, k, s, d);
      t[s] := OpenAddress.Held(k);
    }

    /** The first empty slot from the key's home, counting the steps. */
    method Vacant(t: array<OpenAddress.Cell<DupKey>>, k: DupKey, ghost on: OpenAddress.Layout<DupKey>) returns (s: nat, ghost d: nat)
      requires t.Length > |on.log| && OpenAddress.Laid(t[..], Home(hash, t.Length), on)
      ensures d < t.Length && s == OpenAddress.Walk(hash(k) % t.Length, d, t.Length) && t[s].Empty?
      ensures d == OpenAddress.Probe(t[..], hash(k) % t.Length, e => false, 0)
    {
      var n, i := t.Length, hash(k) % t.Length;
      hide OpenAddress.Laid;
      OpenAddress.ProbeEnds(t[..], Home(hash, n), on, i, e => false);
      ghost var stop := OpenAddress.Probe(t[..], i, e => false, 0);
      s, d := i, 0;
      while t[s].Held?
        invariant d <= stop && s == OpenAddress.Walk(i, d, n)
        decreases stop - d
      {
        assert t[..][OpenAddress.Walk(i, d, n)] == t[s];
        s := OpenAddress.Next(s, n);
        d := d + 1;
      }
      assert t[..][OpenAddress.Walk(i, d, n)] == t[s];
    }

    /** dup_set_grow: twice the slots, every key laid again in slot order. */
    method Grow()
      requires Valid()
      modifies this
      ensures Valid() && count == old(count) && fresh(slots)
      ensures slots.Length == if old(slots.Length) == 0 then 16 else 2 * old(slots.Length)
      ensures forall k :: Has(k) <==> old(Has(k))
    {
      hide OpenAddress.Laid, OpenAddress.HeldOf;
      var n := if slots.Length == 0 then 16 else slots.Length * 2;
      var t := new OpenAddress.Cell<DupKey>[n](i => OpenAddress.Empty);
      ghost var next := OpenAddress.Layout([], [], []);
      assert t[..] == OpenAddress.Clear(n);
      OpenAddress.ClearIsLaid<DupKey>(n, Home(hash, n));
      ghost var was := slots[..];
      if slots.Length > 0 { OpenAddress.HeldIsLog(was, Home(hash, slots.Length), lay); }
      HeldNone(was);
      var i := 0;
      while i < slots.Length
        invariant slots == old(slots) && lay == old(lay) && count == old(count)
        invariant slots[..] == was && i <= slots.Length && t.Length == n
        invariant OpenAddress.Laid(t[..], Home(hash, n), next) && next.log == OpenAddress.HeldOf(was, i)
      {
        HeldStep(was, i);
        OpenAddress.HeldGrows(was, i, |was|);
        if slots[i].Held? {
          var s; ghost var d;
          s, d := Vacant(t, slots[i].e, next);
          next := Seat(t, s, slots[i].e, d, next, e => false);
        }
        i := i + 1;
      }
      slots := t;
      lay := next;
    }

    /** dup_set_insert: whether the key was there already; now it is. */
    method Insert(k: DupKey) returns (twice: bool)
      requires Valid()
      modifies this, slots
      ensures Valid() && twice == old(Has(k)) && (slots == old(slots) || fresh(slots))
      ensures forall j :: Has(j) <==> old(Has(j)) || j == k
    {
      if (count + 1) * 2 > slots.Length {
        Grow();
      }
      twice := Add(k);
    }

    method Add(k: DupKey) returns (twice: bool)
      requires Valid() && (count + 1) * 2 <= slots.Length
      modifies this, slots
      ensures Valid() && twice == old(Has(k)) && slots == old(slots)
      ensures forall j :: Has(j) <==> old(Has(j)) || j == k
    {
      hide OpenAddress.Laid, OpenAddress.Probe, OpenAddress.FirstMatch, OpenAddress.Walk;
      var s; ghost var d;
      s, d := Probe(slots, k, lay);
      OpenAddress.LookupIsFirst(slots[..], Home(hash, slots.Length), lay, hash(k) % slots.Length, Is(k));
      if slots[s].Held? {
        return true;
      }
      lay := Seat(slots, s, k, d, lay, Is(k));
      count := count + 1;
      return false;
    }
  }

  lemma HeldNone(slots: seq<OpenAddress.Cell<DupKey>>)
    ensures OpenAddress.HeldOf(slots, 0) == []
  {
  }

  lemma HeldStep(slots: seq<OpenAddress.Cell<DupKey>>, i: nat)
    requires i < |slots|
    ensures OpenAddress.HeldOf(slots, i + 1) == OpenAddress.HeldOf(slots, i) + if slots[i].Held? then [slots[i].e] else []
  {
  }

  // ---- the scan ---------------------------------------------------------------------------------

  predicate Opens(r: Record) { r.kind.SeqOpen? || r.kind.MapOpen? }

  /** The containers open in front of record i, innermost last, each by the record that opens it. */
  function Stack(recs: seq<Record>, i: nat): (s: seq<nat>)
    requires i <= |recs|
    ensures forall k :: 0 <= k < |s| ==> s[k] < i
    ensures forall j, k :: 0 <= j < k < |s| ==> s[j] < s[k]
  {
    if i == 0 then []
    else
      var s, r := Stack(recs, i - 1), recs[i - 1];
      if Opens(r) then s + [i - 1]
      else if r.kind.Close? && s != [] then s[..|s| - 1]
      else s
  }

  /** Record i is a key the scan looks at: a scalar or alias in a key place inside some container. */
  predicate IsKey(recs: seq<Record>, i: nat)
    requires i < |recs|
  {
    recs[i].isKey && !Opens(recs[i]) && !recs[i].kind.Close? && Stack(recs, i) != []
  }

  function Container(recs: seq<Record>, i: nat): nat
    requires i < |recs| && Stack(recs, i) != []
  {
    Stack(recs, i)[|Stack(recs, i)| - 1]
  }

  /** i and j are the same key of one container. */
  predicate Clash(recs: seq<Record>, i: nat, j: nat)
    requires i < |recs| && j < |recs|
  {
    IsKey(recs, i) && IsKey(recs, j) && Container(recs, i) == Container(recs, j) && KeyOf(recs[i]) == KeyOf(recs[j])
  }

  /** Some container holds one key twice. */
  predicate HasDuplicate(recs: seq<Record>) {
    exists i, j :: 0 <= i < j < |recs| && Clash(recs, i, j)
  }

  /** Two keys of one container, of one kind, style and text, with one payload or the payloads 0 and 1. */
  predicate KeysMeet(recs: seq<Record>, i: nat, j: nat)
    requires i < |recs| && j < |recs|
  {
    var a, b := recs[i], recs[j];
    && IsKey(recs, i) && IsKey(recs, j) && Container(recs, i) == Container(recs, j)
    && a.kind == b.kind && a.b == b.b && (Spanned(a.kind) ==> a.text == b.text)
    && (a.p == b.p || (a.p in {0, 1} && b.p in {0, 1}))
  }

  /** Every key is a string: such a key carries no payload. */
  predicate TextKeys(recs: seq<Record>) {
    forall i :: 0 <= i < |recs| && IsKey(recs, i) ==> recs[i].kind.Str? && recs[i].p == 0
  }

  /** Two keys of one container with one text, both plain or neither. */
  predicate TextsMeet(recs: seq<Record>, i: nat, j: nat)
    requires i < |recs| && j < |recs|
  {
    && IsKey(recs, i) && IsKey(recs, j) && Container(recs, i) == Container(recs, j)
    && recs[i].text == recs[j].text && recs[i].b == recs[j].b
  }

  // ---- the container around a record ------------------------------------------------------------

  /** Containers opened less containers closed between record c and record k. */
  function Balance(recs: seq<Record>, c: nat, k: nat): int
    requires c < k <= |recs|
  {
    if k == c + 1 then 0
    else Balance(recs, c, k - 1) + match recs[k - 1].kind
      case SeqOpen | MapOpen => 1
      case Close => -1
      case _ => 0
  }

  /** Record c opens the innermost container open in front of record i: as many open as close behind it, and never fewer. */
  predicate Encloses(recs: seq<Record>, c: nat, i: nat)
    requires i <= |recs|
  {
    && c < i && (recs[c].kind.SeqOpen? || recs[c].kind.MapOpen?)
    && (forall k :: c < k <= i ==> Balance(recs, c, k) >= 0)
    && Balance(recs, c, i) == 0
  }

  lemma {:induction false} OpenAbove(recs: seq<Record>, c: nat, i: nat)
    requires c < i <= |recs| && Opens(recs[c]) && forall k :: c < k <= i ==> Balance(recs, c, k) >= 0
    ensures var d := |Stack(recs, c)|;
      |Stack(recs, i)| == d + 1 + Balance(recs, c, i) && Stack(recs, i)[d] == c
  {
    if i > c + 1 {
      OpenAbove(recs, c, i - 1);
      assert Balance(recs, c, i - 1) >= 0 && Balance(recs, c, i) >= 0;
    }
  }

  lemma {:induction false} StackOpen(recs: seq<Record>, i: nat, d: nat)
    requires i <= |recs| && d < |Stack(recs, i)|
    ensures var c := Stack(recs, i)[d];
      && Opens(recs[c]) && (forall k :: c < k <= i ==> Balance(recs, c, k) >= 0)
      && Balance(recs, c, i) == |Stack(recs, i)| - 1 - d
  {
    var c := Stack(recs, i)[d];
    if c < i - 1 { StackOpen(recs, i - 1, d); }
  }

  /** The top of the stack is the innermost open container. */
  lemma ContainerExactly(recs: seq<Record>, i: nat, c: nat)
    requires i <= |recs|
    ensures Encloses(recs, c, i) <==> Stack(recs, i) != [] && Stack(recs, i)[|Stack(recs, i)| - 1] == c
  {
    hide Balance, Stack;
    if Stack(recs, i) != [] { StackOpen(recs, i, |Stack(recs, i)| - 1); }
    if Encloses(recs, c, i) { OpenAbove(recs, c, i); }
  }

  /**
   * Two keys of one container that are no containers themselves, of one kind, flag and payload, with the payloads 0 and 1
   * taken for one; of strings, timestamps, aliases and anchors the texts are compared as well.
   */
  ghost predicate Repeats(recs: seq<Record>, i: nat, j: nat)
    requires i < |recs| && j < |recs|
  {
    var a, b := recs[i], recs[j];
    && a.isKey && b.isKey && a.kind == b.kind && !a.kind.SeqOpen? && !a.kind.MapOpen? && !a.kind.Close?
    && (exists c :: Encloses(recs, c, i) && Encloses(recs, c, j))
    && a.b == b.b && (a.p == b.p || (a.p in {0, 1} && b.p in {0, 1}))
    && (a.kind.Str? || a.kind.Timestamp? || a.kind.Alias? || a.kind.Anchor? ==> a.text == b.text)
  }

  lemma RepeatsExactly(recs: seq<Record>, i: nat, j: nat)
    requires i < |recs| && j < |recs|
    ensures Repeats(recs, i, j) <==> KeysMeet(recs, i, j)
  {
    hide Stack, Encloses;
    if Repeats(recs, i, j) {
      var c :| Encloses(recs, c, i) && Encloses(recs, c, j);
      ContainerExactly(recs, i, c);
      ContainerExactly(recs, j, c);
    }
    if KeysMeet(recs, i, j) {
      ContainerExactly(recs, i, Container(recs, i));
      ContainerExactly(recs, j, Container(recs, i));
    }
  }

  lemma DuplicatesExactly(recs: seq<Record>)
    ensures HasDuplicate(recs) <==> exists i, j :: 0 <= i < j < |recs| && Repeats(recs, i, j)
    ensures HasDuplicate(recs) <==> exists i, j :: 0 <= i < j < |recs| && KeysMeet(recs, i, j)
    ensures TextKeys(recs) ==> (HasDuplicate(recs) <==> exists i, j :: 0 <= i < j < |recs| && TextsMeet(recs, i, j))
  {
    hide IsKey, Container, Repeats;
    forall i, j | 0 <= i < j < |recs|
      ensures Clash(recs, i, j) <==> KeysMeet(recs, i, j)
      ensures Repeats(recs, i, j) <==> KeysMeet(recs, i, j)
      ensures TextKeys(recs) ==> (Clash(recs, i, j) <==> TextsMeet(recs, i, j))
    {
      KeysExactly(recs[i], recs[j]);
      RepeatsExactly(recs, i, j);
    }
  }

  /** Key k was seen in front of record i in the container opened by record c. */
  predicate Seen(recs: seq<Record>, i: nat, c: nat, k: DupKey)
    requires i <= |recs|
  {
    exists j :: 0 <= j < i && IsKey(recs, j) && Container(recs, j) == c && KeyOf(recs[j]) == k
  }

  /** The frame holds the keys seen so far in its container. */
  ghost predicate FrameIs(f: DupSet, recs: seq<Record>, i: nat, c: nat)
    requires i <= |recs|
    reads f, f.slots
  {
    f.Valid() && forall k :: f.Has(k) <==> Seen(recs, i, c, k)
  }

  /** The frames hold, container by container, the keys seen so far. */
  ghost predicate Frames(recs: seq<Record>, i: nat, frames: seq<DupSet>)
    requires i <= |recs|
    reads frames, set f | f in frames :: f.slots
  {
    && |frames| == |Stack(recs, i)|
    && (forall d :: 0 <= d < |frames| ==> FrameIs(frames[d], recs, i, Stack(recs, i)[d]))
    && (forall a, b :: 0 <= a < b < |frames| ==> frames[a] != frames[b] && frames[a].slots != frames[b].slots)
  }

  lemma SeenStep(recs: seq<Record>, i: nat, c: nat, k: DupKey)
    requires i < |recs|
    ensures Seen(recs, i + 1, c, k) <==> Seen(recs, i, c, k) || (IsKey(recs, i) && Container(recs, i) == c && KeyOf(recs[i]) == k)
  {
    hide Stack, KeyOf;
    if Seen(recs, i + 1, c, k) {
      var j :| 0 <= j < i + 1 && IsKey(recs, j) && Container(recs, j) == c && KeyOf(recs[j]) == k;
    }
    if Seen(recs, i, c, k) {
      var j :| 0 <= j < i && IsKey(recs, j) && Container(recs, j) == c && KeyOf(recs[j]) == k;
      assert 0 <= j < i + 1;
    }
    if IsKey(recs, i) && Container(recs, i) == c && KeyOf(recs[i]) == k { assert 0 <= i < i + 1; }
  }

  lemma NothingSeenYet(recs: seq<Record>, i: nat, k: DupKey)
    requires i < |recs| && Opens(recs[i])
    ensures !Seen(recs, i + 1, i, k)
  {
  }

  /** The keys in front of record i clash with none of each other. */
  predicate Clean(recs: seq<Record>, i: nat)
    requires i <= |recs|
  {
    forall a, b :: 0 <= a < b < i ==> !Clash(recs, a, b)
  }

  lemma CleanStep(recs: seq<Record>, i: nat)
    requires i < |recs| && Clean(recs, i)
    ensures var seen := IsKey(recs, i) && Seen(recs, i, Container(recs, i), KeyOf(recs[i]));
      (Clean(recs, i + 1) <==> !seen) && (seen ==> HasDuplicate(recs))
  {
    hide Stack, KeyOf;
    if IsKey(recs, i) && Seen(recs, i, Container(recs, i), KeyOf(recs[i])) {
      var j :| 0 <= j < i && IsKey(recs, j) && Container(recs, j) == Container(recs, i) && KeyOf(recs[j]) == KeyOf(recs[i]);
      assert Clash(recs, j, i);
    }
  }

  /** A record that is no key of container c leaves c's frame right. */
  lemma FrameKept(f: DupSet, recs: seq<Record>, i: nat, c: nat)
    requires i < |recs| && FrameIs(f, recs, i, c) && !(IsKey(recs, i) && Container(recs, i) == c)
    ensures FrameIs(f, recs, i + 1, c)
  {
    hide Seen, IsKey, Stack;
    forall k ensures Seen(recs, i + 1, c, k) <==> Seen(recs, i, c, k) { SeenStep(recs, i, c, k); }
  }

  lemma FramesKept(recs: seq<Record>, i: nat, frames: seq<DupSet>)
    requires i < |recs| && Frames(recs, i, frames) && !Opens(recs[i]) && !recs[i].kind.Close? && !IsKey(recs, i)
    ensures Frames(recs, i + 1, frames)
  {
    hide FrameIs, IsKey;
    assert Stack(recs, i + 1) == Stack(recs, i);
    forall d | 0 <= d < |frames| ensures FrameIs(frames[d], recs, i + 1, Stack(recs, i + 1)[d]) {
      FrameKept(frames[d], recs, i, Stack(recs, i)[d]);
    }
  }

  lemma FrameOpened(recs: seq<Record>, i: nat, frames: seq<DupSet>, f: DupSet)
    requires i < |recs| && Frames(recs, i, frames) && Opens(recs[i]) && f.Valid() && f.lay.log == []
    requires forall d :: 0 <= d < |frames| ==> frames[d] != f && frames[d].slots != f.slots
    ensures Frames(recs, i + 1, frames + [f])
  {
    NoKey(recs, i);
    forall k {:trigger Seen(recs, i + 1, i, k)} ensures !Seen(recs, i + 1, i, k) { NothingSeenYet(recs, i, k); }
    assert FrameIs(f, recs, i + 1, i);
    hide FrameIs, IsKey;
    assert Stack(recs, i + 1) == Stack(recs, i) + [i];
    forall d | 0 <= d < |frames| ensures FrameIs(frames[d], recs, i + 1, Stack(recs, i + 1)[d]) {
      FrameKept(frames[d], recs, i, Stack(recs, i)[d]);
    }
  }

  lemma FrameClosed(recs: seq<Record>, i: nat, frames: seq<DupSet>)
    requires i < |recs| && Frames(recs, i, frames) && recs[i].kind.Close?
    ensures Frames(recs, i + 1, if frames == [] then [] else frames[..|frames| - 1])
  {
    NoKey(recs, i);
    hide FrameIs, IsKey;
    var left := if frames == [] then [] else frames[..|frames| - 1];
    forall d | 0 <= d < |left| ensures FrameIs(left[d], recs, i + 1, Stack(recs, i + 1)[d]) {
      FrameKept(frames[d], recs, i, Stack(recs, i)[d]);
    }
  }

  /** The key goes into the frame of its container. */
  method TakeKey(recs: seq<Record>, i: nat, frames: seq<DupSet>) returns (twice: bool)
    requires i < |recs| && Frames(recs, i, frames) && IsKey(recs, i)
    modifies frames, set f | f in frames :: f.slots
    ensures twice == Seen(recs, i, Container(recs, i), KeyOf(recs[i]))
    ensures !twice ==> Frames(recs, i + 1, frames)
    ensures forall d :: 0 <= d < |frames| ==> frames[d].slots == old(frames[d].slots) || fresh(frames[d].slots)
  {
    hide IsKey, Seen, KeyOf;
    AKeyStays(recs, i);
    var t := |frames| - 1;
    var top := frames[t];
    ghost var stack := Stack(recs, i);
    assert FrameIs(top, recs, i, stack[t]);
    twice := top.Insert(KeyOf(recs[i]));
    forall k {:trigger Seen(recs, i + 1, stack[t], k)} ensures Seen(recs, i + 1, stack[t], k) <==> Seen(recs, i, stack[t], k) || k == KeyOf(recs[i]) {
      SeenStep(recs, i, stack[t], k);
    }
    assert FrameIs(top, recs, i + 1, stack[t]);
    forall d | 0 <= d < t ensures FrameIs(frames[d], recs, i + 1, stack[d]) {
      assert FrameIs(frames[d], recs, i, stack[d]);
      FrameKept(frames[d], recs, i, stack[d]);
    }
  }

  lemma AKeyStays(recs: seq<Record>, i: nat)
    requires i < |recs| && IsKey(recs, i)
    ensures Stack(recs, i) != [] && Stack(recs, i + 1) == Stack(recs, i)
    ensures Container(recs, i) == Stack(recs, i)[|Stack(recs, i)| - 1]
  {
  }

  /** strict_dup_scan: a duplicate is reported exactly when some container, at any nesting, holds one key twice. */
  method StrictDupScan(recs: seq<Record>, hash: DupKey -> nat) returns (twice: bool)
    ensures twice == HasDuplicate(recs)
    ensures twice <==> exists i, j :: 0 <= i < j < |recs| && Repeats(recs, i, j)
    ensures twice <==> exists i, j :: 0 <= i < j < |recs| && KeysMeet(recs, i, j)
    ensures TextKeys(recs) ==> (twice <==> exists i, j :: 0 <= i < j < |recs| && TextsMeet(recs, i, j))
  {
    DuplicatesExactly(recs);
    hide Clean, IsKey, Seen, Stack, FrameIs, Repeats;
    var frames: seq<DupSet> := [];
    CleanStart(recs);
    var i := 0;
    while i < |recs|
      invariant i <= |recs| && Clean(recs, i)
      invariant forall d :: 0 <= d < |frames| ==> fresh(frames[d]) && fresh(frames[d].slots)
      invariant Frames(recs, i, frames)
    {
      CleanStep(recs, i);
      var r := recs[i];
      if Opens(r) {
        NoKey(recs, i);
        var f := new DupSet(hash);
        FrameOpened(recs, i, frames, f);
        frames := frames + [f];
      } else if r.kind.Close? {
        NoKey(recs, i);
        FrameClosed(recs, i, frames);
        if frames != [] {
          frames := frames[..|frames| - 1];
        }
      } else if r.isKey && frames != [] {
        AKey(recs, i);
        twice := TakeKey(recs, i, frames);
        if twice {
          return;
        }
      } else {
        NoKey(recs, i);
        FramesKept(recs, i, frames);
      }
      i := i + 1;
    }
    CleanAll(recs);
    return false;
  }

  lemma CleanStart(recs: seq<Record>)
    ensures Clean(recs, 0) && Stack(recs, 0) == []
  {
  }

  lemma NoKey(recs: seq<Record>, i: nat)
    requires i < |recs| && (Opens(recs[i]) || recs[i].kind.Close? || !recs[i].isKey || Stack(recs, i) == [])
    ensures !IsKey(recs, i)
  {
  }

  lemma AKey(recs: seq<Record>, i: nat)
    requires i < |recs| && !Opens(recs[i]) && !recs[i].kind.Close? && recs[i].isKey && Stack(recs, i) != []
    ensures IsKey(recs, i)
  {
  }

  lemma CleanAll(recs: seq<Record>)
    requires Clean(recs, |recs|)
    ensures !HasDuplicate(recs)
  {
  }
}
