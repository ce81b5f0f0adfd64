/** The tree a stream of records stands for once every link is replaced: by what it names, or by what the reader finds. */
module MarshalExpand {
  import opened Wrappers
  import opened Bytes
  import opened MarshalNumber
  import opened MarshalWrite
  import opened MarshalTree
  import opened MarshalRead
  import opened MarshalTranscode
  import CborEncode

  // ---- names, object numbers and link slots -------------------------------------------------

  /** What sits in a link slot, or is meant by an object number: a scalar, or a branch. */
  datatype Held = Spelt(sp: Spelled) | Opened
  type Spelled = sp: Spelling | Spellable(sp) witness NullWord

  /** What a name stands for: nothing yet, a scalar to be written again, or an object number and what it was given to. */
  datatype What = Unset | Copied(rec: ScalarRecord) | Numbered(id: nat, held: Held)
  datatype Meaning = Meaning(name: seq<byte>, what: What)

  /** The names bound, the slots the reader will have filled, and how many numbers the writer will have given. */
  datatype Names = Names(env: seq<Meaning>, memo: seq<Held>, nreg: nat)

  const NAMELESS: Names := Names([], [], 0)

  function Lookup(env: seq<Meaning>, name: seq<byte>): What {
    if env == [] then Unset
    else
      var last := |env| - 1;
      if env[last].name == name then env[last].what else Lookup(env[..last], name)
  }

  /** A scalar was written: the writer numbers strings and floats, the reader keeps bignums too. */
  function Took(s: Names, sp: Spelled): Names {
    s.(memo := s.memo + (if Registering(sp) || Bulky(sp) then [Spelt(sp)] else []),
       nreg := s.nreg + (if Registering(sp) then 1 else 0))
  }

  /** A branch was opened. */
  function Entered(s: Names): Names { s.(memo := s.memo + [Opened], nreg := s.nreg + 1) }

  // ---- expansion -----------------------------------------------------------------------

  datatype Expansion = Made(node: Node, names: Names) | Unmade
  datatype Expansions = AllMade(nodes: seq<Node>, names: Names) | NotMade

  /** What a link to a number brings: what was given the number, or what the reader finds in the slot of that number. */
  function Brings(s: Names, id: nat, held: Held, meant: bool): Held {
    if meant then held else if id < |s.memo| then s.memo[id] else Opened
  }

  function ExpandScalar(host: Host, compat: bool, rec: ScalarRecord, key: bool, s: Names): Expansion {
    var sp := SpellingOf(rec, compat);
    match NodeOf(host, key, sp)
    case None => Unmade
    case Some(n) => Made(n, Took(s, sp))
  }

  function ExpandLink(host: Host, compat: bool, name: seq<byte>, key: bool, s: Names, meant: bool): Expansion {
    match Lookup(s.env, name)
    case Unset => Unmade
    case Copied(rec) => ExpandScalar(host, compat, rec, key, s)
    case Numbered(id, held) =>
      match Brings(s, id, held, meant)
      case Opened => Unmade
      case Spelt(sp) =>
        match NodeOf(host, key, sp)
        case None => Unmade
        case Some(n) => Made(n, s)
  }

  /** What an anchored value is bound to: nreg numbers were given before it. */
  function Bears(t: Tree, key: bool, compat: bool, nreg: nat): What {
    match t
    case Scalar(_, rec) =>
      var sp := SpellingOf(rec.(isKey := key), compat);
      if Registering(sp) then Numbered(nreg, Spelt(sp)) else Copied(rec.(isKey := key))
    case Link(_) => Unset
    case _ => Numbered(nreg, Opened)
  }

  function Anchored(s: Names, anchor: seq<byte>): Names {
    if anchor == [] then s else s.(env := s.env + [Meaning(anchor, Unset)])
  }

  function Settled(x: Expansion, anchor: seq<byte>, k: nat, what: What): Expansion {
    if x.Made? && anchor != [] && k < |x.names.env| then x.(names := x.names.(env := x.names.env[k := Meaning(anchor, what)])) else x
  }

  /** Two keys are written alike. */
  predicate Clash(n: Node) {
    n.Mapping? && CborEncode.KeysOk(n) && Twice(CborEncode.Keys(n))
  }

  function BranchNode(t: Tree, nodes: seq<Node>): Node {
    if t.List? then CborEncode.Sequence([], nodes) else CborEncode.Mapping([], nodes)
  }

  /** The names only grow. */
  predicate Extends(s: Names, t: Names) { s.env <= t.env && s.memo <= t.memo && s.nreg <= t.nreg }

  /**
   * The tree with its links replaced, by what they mean or by what the reader finds, as far as the reader's limits
   * and key rules allow.
   */
  function Expand(host: Host, compat: bool, t: Tree, key: bool, s: Names, depth: nat, meant: bool): (x: Expansion)
    ensures x.Made? ==> Extends(s, x.names)
    decreases t, 1, 0
  {
    Settled(ExpandCore(host, compat, t, key, Anchored(s, AnchorOf(t)), depth, meant), AnchorOf(t), |s.env|, Bears(t, key, compat, s.nreg))
  }

  function ExpandCore(host: Host, compat: bool, t: Tree, key: bool, s: Names, depth: nat, meant: bool): (x: Expansion)
    ensures x.Made? ==> Extends(s, x.names)
    decreases t, 0, 1
  {
    if depth >= MAX_DEPTH then Unmade
    else
      match t
      case Scalar(_, rec) => ExpandScalar(host, compat, rec.(isKey := key), key, s)
      case Link(name) => ExpandLink(host, compat, name, key, s, meant)
      case _ =>
        if key then Unmade
        else
          match ExpandKids(host, compat, t, 0, Entered(s), depth + 1, meant)
          case NotMade => Unmade
          case AllMade(nodes, s1) =>
            var n := BranchNode(t, nodes);
            if Clash(n) then Unmade else Made(n, s1)
  }

  /** The kids from k on. */
  function ExpandKids(host: Host, compat: bool, t: Tree, k: nat, s: Names, depth: nat, meant: bool): (x: Expansions)
    requires IsBranch(t) && k <= |t.kids|
    ensures x.AllMade? ==> |x.nodes| == |t.kids| - k && Extends(s, x.names)
    decreases t, 0, 0, |t.kids| - k
  {
    if k == |t.kids| then AllMade([], s)
    else
      match Expand(host, compat, t.kids[k], KeySlot(t, k), s, depth, meant)
      case Unmade => NotMade
      case Made(n, s1) => Beside(n, ExpandKids(host, compat, t, k + 1, s1, depth, meant))
  }

  function Beside(n: Node, x: Expansions): Expansions {
    match x
    case AllMade(nodes, s) => AllMade([n] + nodes, s)
    case NotMade => NotMade
  }

  // ---- what is written ------------------------------------------------------------------------

  /** The records at hand, their counts and the writer's mode. */
  datatype Source = Source(recs: seq<Record>, counts: seq<nat>, compat: bool, host: Host)

  /** The binding of the writer and the meaning of the name. */
  predicate Agrees(b: Binding, e: Meaning) {
    && b.name == e.name
    && match e.what
       case Unset => b.target.Pending?
       case Copied(rec) => b.target == Copy(rec)
       case Numbered(id, _) => b.target == Object(id)
  }

  predicate EnvMatch(anchors: seq<Binding>, env: seq<Meaning>) {
    |anchors| == |env| && forall k :: 0 <= k < |env| ==> Agrees(anchors[k], env[k])
  }

  lemma {:induction false} FindsIndex(anchors: seq<Binding>, env: seq<Meaning>, name: seq<byte>) returns (k: int)
    requires EnvMatch(anchors, env)
    ensures -1 <= k < |env|
    ensures k < 0 ==> Find(anchors, name) == Pending && Lookup(env, name) == Unset
    ensures k >= 0 ==> Find(anchors, name) == anchors[k].target && Lookup(env, name) == env[k].what
    decreases |env|
  {
    k := -1;
    if env != [] {
      var last := |env| - 1;
      assert Agrees(anchors[last], env[last]);
      if env[last].name == name { k := last; } else { k := FindsIndex(anchors[..last], env[..last], name); }
    }
  }

  predicate CountsAt(x: Source, at: nat, cs: seq<nat>) {
    at + |cs| <= |x.counts| && x.counts[at..at + |cs|] == cs
  }

  lemma CountsSplit(x: Source, at: nat, a: seq<nat>, b: seq<nat>)
    requires CountsAt(x, at, a + b)
    ensures CountsAt(x, at, a) && CountsAt(x, at + |a|, b)
  {
    var s := x.counts[at..at + |a + b|];
    assert s[..|a|] == a && s[|a|..] == b;
  }

  predicate Here(x: Source, i: nat, st: State) { Counted(x.recs, x.counts) && At(x.recs, i, st) }

  function Emit(x: Source, i: nat, st: State): Emitted
    requires Here(x, i, st) && i < |x.recs|
  {
    WriteValue(x.recs, x.counts, x.compat, i, st)
  }

  function EmitKids(x: Source, i: nat, st: State): Emitted
    requires Here(x, i, st)
  {
    WriteElements(x.recs, x.counts, x.compat, i, st)
  }

  predicate Spans(e: Emitted, next: nat, openSeq: nat) {
    e.Emitted? ==> e.next == next && e.st.openSeq == openSeq
  }

  lemma FirstOf(recs: seq<Record>, i: nat, rs: seq<Record>)
    requires Runs(recs, i, rs) && rs != []
    ensures i < |recs| && recs[i] == rs[0]
  {
    assert recs[i..i + |rs|][0] == recs[i];
  }

  lemma CoreLead(t: Tree, key: bool)
    ensures !Core(t, key)[0].kind.Anchor? && !Core(t, key)[0].kind.Close?
    ensures IsOpen(Core(t, key)[0]) <==> IsBranch(t)
  {
  }

  /** An anchored value is the anchor, the value behind it, and then the binding. */
  lemma EmitUnfolds(x: Source, i: nat, t: Tree, key: bool, st: State)
    requires Here(x, i, st) && Runs(x.recs, i, Records(t, key))
    ensures i < |x.recs|
    ensures AnchorOf(t) == [] ==> Runs(x.recs, i, Core(t, key)) && Emit(x, i, st) == WriteBody(x.recs, x.counts, x.compat, i, st)
    ensures AnchorOf(t) != [] ==>
      && Runs(x.recs, i + 1, Core(t, key)) && i + 1 < |x.recs| && Here(x, i + 1, Announce(st, AnchorOf(t)))
      && Emit(x, i, st) == Rebound(WriteBody(x.recs, x.counts, x.compat, i + 1, Announce(st, AnchorOf(t))), |st.anchors|, Core(t, key)[0])
  {
    hide WriteBody, Core, At, Counted;
    var core := Core(t, key);
    RunsSplit(x.recs, i, Mark(AnchorOf(t)), core);
    CoreLead(t, key);
    if AnchorOf(t) == [] {
      FirstOf(x.recs, i, core);
    } else {
      FirstOf(x.recs, i, Mark(AnchorOf(t)));
      FirstOf(x.recs, i + 1, core);
      HereAnnounce(x, i, st);
      assert WriteValue(x.recs, x.counts, x.compat, i + 1, Announce(st, AnchorOf(t)))
          == WriteBody(x.recs, x.counts, x.compat, i + 1, Announce(st, AnchorOf(t)));
    }
  }

  lemma HereAnnounce(x: Source, i: nat, st: State)
    requires Here(x, i, st) && i < |x.recs| && x.recs[i].kind.Anchor?
    ensures Here(x, i + 1, Announce(st, x.recs[i].text))
  {
    AnnounceKeepsAt(x.recs, i, st, x.recs[i].text);
  }

  function Rebound(e: Emitted, k: nat, value: Record): Emitted {
    match e
    case Emitted(bytes, next, st) => Emitted(bytes, next, if k < |st.anchors| then Bound(st, k, value) else st)
    case Failed => Failed
  }

  /** A branch is its bracket, its count, its kids and the close record. */
  lemma BranchUnfolds(x: Source, i: nat, t: Tree, key: bool, st: State)
    requires Here(x, i, st) && IsBranch(t) && Runs(x.recs, i, Core(t, key))
    ensures i < |x.recs| && Here(x, i + 1, Enter(st)) && st.openSeq < |x.counts| && x.counts[st.openSeq] < 0x1_0000_0000
    ensures Runs(x.recs, i + 1, KidRecords(t, 0) + [CLOSING])
    ensures WriteBody(x.recs, x.counts, x.compat, i, st)
         == Wrapped([Bracket(if t.List? then SeqOpen else MapOpen)] + LongBytes(x.counts[st.openSeq]), EmitKids(x, i + 1, Enter(st)), st.nreg)
  {
    hide WriteElements, LongBytes, KidRecords;
    assert Core(t, key) == [Opening(t, key)] + (KidRecords(t, 0) + [CLOSING]);
    RunsSplit(x.recs, i, [Opening(t, key)], KidRecords(t, 0) + [CLOSING]);
    FirstOf(x.recs, i, [Opening(t, key)]);
    OpensMono(x.recs, i + 1, |x.recs|);
    EnterKeepsAt(x.recs, i, st);
  }

  function Wrapped(head: seq<byte>, e: Emitted, id: nat): Emitted {
    match e
    case Emitted(bytes, j, st) => Emitted(head + bytes, j + 1, st.(last := Registered(id)))
    case Failed => Failed
  }

  /** The kids from k on are one value, then the rest. */
  lemma KidsUnfold(x: Source, i: nat, t: Tree, k: nat, st: State)
    requires Here(x, i, st) && IsBranch(t) && k < |t.kids| && Runs(x.recs, i, KidRecords(t, k) + [CLOSING])
    ensures Runs(x.recs, i, Records(t.kids[k], KeySlot(t, k))) && i < |x.recs|
    ensures Runs(x.recs, i + |Records(t.kids[k], KeySlot(t, k))|, KidRecords(t, k + 1) + [CLOSING])
    ensures KidRecords(t, k) == Records(t.kids[k], KeySlot(t, k)) + KidRecords(t, k + 1)
    ensures KidCounts(t, k) == TreeCounts(t.kids[k]) + KidCounts(t, k + 1)
    ensures Emit(x, i, st).Emitted? ==> Here(x, Emit(x, i, st).next, Emit(x, i, st).st)
    ensures EmitKids(x, i, st)
         == if Emit(x, i, st).Failed? then Failed
            else Prefix(Emit(x, i, st).bytes, EmitKids(x, Emit(x, i, st).next, Emit(x, i, st).st))
  {
    hide WriteValue, Records;
    var one, rest := Records(t.kids[k], KeySlot(t, k)), KidRecords(t, k + 1) + [CLOSING];
    assert KidRecords(t, k) + [CLOSING] == one + rest;
    RunsSplit(x.recs, i, one, rest);
    FirstOf(x.recs, i, one);
    RecordsLead(t.kids[k], KeySlot(t, k));
  }

  lemma RecordsLead(t: Tree, key: bool)
    ensures Records(t, key) != [] && !Records(t, key)[0].kind.Close?
  {
    CoreLead(t, key);
    hide Core;
  }

  lemma {:induction false} TreeSpans(x: Source, i: nat, t: Tree, key: bool, st: State)
    requires Here(x, i, st) && Runs(x.recs, i, Records(t, key))
    ensures i < |x.recs| && Spans(Emit(x, i, st), i + |Records(t, key)|, st.openSeq + |TreeCounts(t)|)
    decreases t, 1
  {
    hide WriteBody, WriteValue, Core, TreeCounts, At, Counted;
    EmitUnfolds(x, i, t, key, st);
    if AnchorOf(t) == [] {
      CoreSpans(x, i, t, key, st);
    } else {
      CoreSpans(x, i + 1, t, key, Announce(st, AnchorOf(t)));
    }
  }

  lemma {:induction false} CoreSpans(x: Source, i: nat, t: Tree, key: bool, st: State)
    requires Here(x, i, st) && Runs(x.recs, i, Core(t, key))
    ensures i < |x.recs| && Spans(WriteBody(x.recs, x.counts, x.compat, i, st), i + |Core(t, key)|, st.openSeq + |TreeCounts(t)|)
    decreases t, 0
  {
    hide WriteBody, WriteElements, KidRecords, KidCounts, TreeCounts, LongBytes, At, Counted, Core;
    FirstOf(x.recs, i, Core(t, key));
    if IsBranch(t) {
      BranchUnfolds(x, i, t, key, st);
      KidsSpan(x, i + 1, t, 0, Enter(st));
      BranchSizes(t, key);
    } else {
      LeafSpans(x, i, t, key, st);
    }
  }

  lemma BranchSizes(t: Tree, key: bool)
    requires IsBranch(t)
    ensures |Core(t, key)| == |KidRecords(t, 0)| + 2 && |TreeCounts(t)| == 1 + |KidCounts(t, 0)|
  {
  }

  lemma LeafSpans(x: Source, i: nat, t: Tree, key: bool, st: State)
    requires Here(x, i, st) && !IsBranch(t) && Runs(x.recs, i, Core(t, key)) && i < |x.recs|
    ensures Spans(WriteBody(x.recs, x.counts, x.compat, i, st), i + |Core(t, key)|, st.openSeq + |TreeCounts(t)|)
  {
    hide At, Counted, LongBytes, WriteScalar, WriteAlias;
    FirstOf(x.recs, i, Core(t, key));
    CoreLead(t, key);
    HereSound(x, i, st);
  }

  lemma HereSound(x: Source, i: nat, st: State)
    requires Here(x, i, st)
    ensures Sound(st) && AllStorable(x.recs)
  {
  }

  lemma {:induction false} KidsSpan(x: Source, i: nat, t: Tree, k: nat, st: State)
    requires Here(x, i, st) && IsBranch(t) && k <= |t.kids| && Runs(x.recs, i, KidRecords(t, k) + [CLOSING])
    ensures Spans(EmitKids(x, i, st), i + |KidRecords(t, k)|, st.openSeq + |KidCounts(t, k)|)
    decreases t, 0, |t.kids| - k
  {
    hide WriteValue, WriteElements, Records, TreeCounts, At, Counted, KidRecords, KidCounts;
    if k < |t.kids| {
      KidsUnfold(x, i, t, k, st);
      TreeSpans(x, i, t.kids[k], KeySlot(t, k), st);
      var e := Emit(x, i, st);
      if e.Emitted? { KidsSpan(x, e.next, t, k + 1, e.st); }
    } else {
      KidsEnd(x, i, t, st);
    }
  }

  lemma KidsEnd(x: Source, i: nat, t: Tree, st: State)
    requires Here(x, i, st) && IsBranch(t) && Runs(x.recs, i, KidRecords(t, |t.kids|) + [CLOSING])
    ensures EmitKids(x, i, st) == Emitted([], i, st)
    ensures KidRecords(t, |t.kids|) == [] && KidCounts(t, |t.kids|) == []
  {
    assert KidRecords(t, |t.kids|) + [CLOSING] == [CLOSING];
    FirstOf(x.recs, i, [CLOSING]);
  }

  // ---- the writer and the expansion agree on the names ---------------------------------------

  /** The writer's bindings and numbers are those of the names. */
  predicate Matches(st: State, s: Names) { EnvMatch(st.anchors, s.env) && st.nreg == s.nreg }

  lemma AnnounceMatches(st: State, s: Names, anchor: seq<byte>)
    requires Matches(st, s) && anchor != []
    ensures Matches(Announce(st, anchor), Anchored(s, anchor))
  {
    var a, n := Announce(st, anchor).anchors, Anchored(s, anchor).env;
    forall k | 0 <= k < |n| ensures Agrees(a[k], n[k]) {
      if k < |s.env| { assert Agrees(st.anchors[k], s.env[k]); }
    }
  }

  /** What the writer last registered is what the binding needs: the number before, for whatever takes one. */
  predicate LastFits(x: Source, t: Tree, key: bool, nreg: nat, st: State) {
    match t
    case Scalar(_, rec) => st.last == if Registering(SpellingOf(rec.(isKey := key), x.compat)) then Registered(nreg) else Immediate
    case Link(_) => true
    case _ => st.last == Registered(nreg)
  }

  lemma BoundMatches(x: Source, t: Tree, key: bool, st: State, s: Names, k: nat, anchor: seq<byte>, nreg: nat)
    requires Matches(st, s) && k < |s.env| && s.env[k].name == anchor && !t.Link? && LastFits(x, t, key, nreg, st)
    ensures k < |st.anchors|
    ensures Matches(Bound(st, k, Core(t, key)[0]), s.(env := s.env[k := Meaning(anchor, Bears(t, key, x.compat, nreg))]))
  {
    var a, n := Bound(st, k, Core(t, key)[0]).anchors, s.env[k := Meaning(anchor, Bears(t, key, x.compat, nreg))];
    hide SpellingOf;
    assert Agrees(st.anchors[k], s.env[k]);
    forall j | 0 <= j < |n| ensures Agrees(a[j], n[j]) {
      assert Agrees(st.anchors[j], s.env[j]);
    }
  }

  lemma {:induction false} TreeNames(x: Source, i: nat, t: Tree, key: bool, st: State, s: Names, depth: nat, meant: bool)
    requires Here(x, i, st) && Runs(x.recs, i, Records(t, key)) && Matches(st, s)
    ensures i < |x.recs|
    ensures var y := Expand(x.host, x.compat, t, key, s, depth, meant);
      y.Made? ==> Emit(x, i, st).Emitted? && Matches(Emit(x, i, st).st, y.names)
    decreases t, 1
  {
    hide WriteBody, WriteValue, Core, At, Counted, ExpandCore, Matches, Bears, Extends;
    EmitUnfolds(x, i, t, key, st);
    var anchor := AnchorOf(t);
    if anchor == [] {
      CoreNames(x, i, t, key, st, s, depth, meant);
    } else {
      AnnounceMatches(st, s, anchor);
      var st1, s1 := Announce(st, anchor), Anchored(s, anchor);
      CoreNames(x, i + 1, t, key, st1, s1, depth, meant);
      var y := ExpandCore(x.host, x.compat, t, key, s1, depth, meant);
      if y.Made? {
        var e := WriteBody(x.recs, x.counts, x.compat, i + 1, st1);
        StillNamed(s, anchor, y.names);
        MatchLength(st, s);
        BoundMatches(x, t, key, e.st, y.names, |s.env|, anchor, s.nreg);
      }
    }
  }

  lemma StillNamed(s: Names, anchor: seq<byte>, t: Names)
    requires anchor != [] && Extends(Anchored(s, anchor), t)
    ensures |s.env| < |t.env| && t.env[|s.env|].name == anchor
  {
    assert t.env[|s.env|] == Anchored(s, anchor).env[|s.env|];
  }

  lemma MatchLength(st: State, s: Names)
    requires Matches(st, s)
    ensures |st.anchors| == |s.env| && st.nreg == s.nreg
  {
  }

  lemma {:induction false} CoreNames(x: Source, i: nat, t: Tree, key: bool, st: State, s: Names, depth: nat, meant: bool)
    requires Here(x, i, st) && Runs(x.recs, i, Core(t, key)) && Matches(st, s)
    ensures i < |x.recs|
    ensures var y := ExpandCore(x.host, x.compat, t, key, s, depth, meant);
      var e := WriteBody(x.recs, x.counts, x.compat, i, st);
      y.Made? ==> e.Emitted? && Matches(e.st, y.names) && LastFits(x, t, key, s.nreg, e.st)
    decreases t, 0
  {
    hide WriteBody, WriteElements, At, Counted, EnvMatch, SpellingOf, NodeOf, Clash, LongBytes, ExpandKids, KidRecords, Find, Lookup, Extends;
    FirstOf(x.recs, i, Core(t, key));
    if IsBranch(t) {
      BranchUnfolds(x, i, t, key, st);
      KidsNames(x, i + 1, t, 0, Enter(st), Entered(s), depth + 1, meant);
    } else {
      LeafNames(x, i, t, key, st, s, depth, meant);
    }
  }

  lemma LeafNames(x: Source, i: nat, t: Tree, key: bool, st: State, s: Names, depth: nat, meant: bool)
    requires Here(x, i, st) && !IsBranch(t) && Runs(x.recs, i, Core(t, key)) && Matches(st, s)
    ensures i < |x.recs|
    ensures var y := ExpandCore(x.host, x.compat, t, key, s, depth, meant);
      var e := WriteBody(x.recs, x.counts, x.compat, i, st);
      y.Made? ==> e.Emitted? && Matches(e.st, y.names) && LastFits(x, t, key, s.nreg, e.st)
  {
    hide At, Counted, EnvMatch, SpellingOf, NodeOf, LongBytes, WriteScalar, Find, Lookup, SpellingBytes, Brings;
    FirstOf(x.recs, i, Core(t, key));
    HereSound(x, i, st);
    match t
    case Scalar(_, rec) => ScalarWrites(rec.(isKey := key), x.compat, st);
    case Link(name) =>
      var k := FindsIndex(st.anchors, s.env, name);
      if k >= 0 {
        AgreesAt(st, s.env, k);
        if s.env[k].what.Copied? { ScalarWrites(s.env[k].what.rec, x.compat, st); }
      }
  }

  lemma AgreesAt(st: State, env: seq<Meaning>, k: nat)
    requires EnvMatch(st.anchors, env) && k < |env|
    ensures |st.anchors| == |env| && Agrees(st.anchors[k], env[k])
  {
  }

  lemma {:induction false} KidsNames(x: Source, i: nat, t: Tree, k: nat, st: State, s: Names, depth: nat, meant: bool)
    requires Here(x, i, st) && IsBranch(t) && k <= |t.kids| && Runs(x.recs, i, KidRecords(t, k) + [CLOSING]) && Matches(st, s)
    ensures var y := ExpandKids(x.host, x.compat, t, k, s, depth, meant);
      y.AllMade? ==> EmitKids(x, i, st).Emitted? && Matches(EmitKids(x, i, st).st, y.names)
    decreases t, 0, |t.kids| - k
  {
    hide WriteValue, WriteElements, Records, At, Counted, KidRecords, Expand, Matches, Extends;
    if k < |t.kids| {
      KidsUnfold(x, i, t, k, st);
      TreeNames(x, i, t.kids[k], KeySlot(t, k), st, s, depth, meant);
      TreeSpans(x, i, t.kids[k], KeySlot(t, k), st);
      var e := Emit(x, i, st);
      var y := Expand(x.host, x.compat, t.kids[k], KeySlot(t, k), s, depth, meant);
      if y.Made? { KidsNames(x, e.next, t, k + 1, e.st, y.names, depth, meant); }
    } else {
      KidsEnd(x, i, t, st);
    }
  }
}
