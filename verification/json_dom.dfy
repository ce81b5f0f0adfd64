/** dom_from_tape: the columns replayed into the document store. */
module JsonDom {
  import opened Wrappers
  import opened JsonGrammar
  import opened JsonLexer
  import opened JsonWalk
  import opened JsonComplete
  import JsonSound
  import JsonTape
  import opened JsonRecord
  import opened JsonKeys
  import JsonLongKey
  import JsonLinks
  import JsonTokens
  import DomStore
  import DomTree

  /** YEP_DOM_MAX_DEPTH. */
  const DOM_DEPTH: nat := 1000

  /** A node's kind of row and the bytes its span covers; escapes are resolved by a later kernel. */
  datatype Span = Span(kind: Kind, text: seq<bv8>)

  type Call = DomStore.Call<Span>
  type Tree = DomTree.Tree<Span>

  function Slice(p: seq<bv8>, off: nat, len: nat): seq<bv8> {
    if off + len <= |p| then p[off..off + len] else []
  }

  /** The builder call a row leads to; DOC leads to none. */
  function RowCall(p: seq<bv8>, r: Rec): Call
    requires r.kind != Doc
  {
    if Opens(r.kind) then DomStore.Begin(Span(r.kind, []), r.kind == MapOpen)
    else if r.kind == Close then DomStore.End
    else DomStore.Item(Span(r.kind, Slice(p, r.off, r.len)))
  }

  function RowCalls(p: seq<bv8>, rows: seq<Rec>): seq<Call> {
    if rows == [] then []
    else RowCalls(p, rows[..|rows| - 1]) + LastCall(p, rows[|rows| - 1])
  }

  function LastCall(p: seq<bv8>, r: Rec): seq<Call> { if r.kind == Doc then [] else [RowCall(p, r)] }

  lemma {:induction false} CallsJoin(p: seq<bv8>, a: seq<Rec>, b: seq<Rec>)
    ensures RowCalls(p, a + b) == RowCalls(p, a) + RowCalls(p, b)
    decreases |b|
  {
    hide LastCall;
    if b == [] {
      assert a + b == a;
    } else {
      var init := b[..|b| - 1];
      assert (a + b)[..|a + b| - 1] == a + init;
      CallsJoin(p, a, init);
      assert RowCalls(p, a) + RowCalls(p, init) + LastCall(p, b[|b| - 1]) ==
             RowCalls(p, a) + (RowCalls(p, init) + LastCall(p, b[|b| - 1]));
    }
  }

  lemma CallsOne(p: seq<bv8>, r: Rec)
    ensures RowCalls(p, [r]) == LastCall(p, r)
  {
    assert [r][..0] == [];
  }

  // ---- the tree of a text --------------------------------------------------------------

  function Leaf(kind: Kind, text: seq<bv8>): Tree { DomTree.Tree(Span(kind, text), DomStore.Leaf, []) }

  /** The document a JSON tree denotes: its members alternate as keys and values. */
  function JsonTree(v: Json): Tree
    decreases v, 0
  {
    match v
    case JString(content) => Leaf(Str, content)
    case JNumber(text) => Leaf(NumKind(text), text)
    case JLiteral(word) => Leaf(WordKind(word), WordText(word))
    case JArray(_, es) => DomTree.Tree(Span(SeqOpen, []), DomStore.Seq, ElementTrees(es))
    case JObject(_, ms) => DomTree.Tree(Span(MapOpen, []), DomStore.Map, MemberTrees(ms))
  }

  function ElementTrees(es: seq<Element>): (r: seq<Tree>)
    ensures |r| == |es|
    decreases es, 0
  {
    if es == [] then [] else [JsonTree(es[0].value)] + ElementTrees(es[1..])
  }

  function MemberTrees(ms: seq<Member>): (r: seq<Tree>)
    ensures |r| == 2 * |ms|
    decreases ms, 0
  {
    if ms == [] then [] else [Leaf(Str, ms[0].key), JsonTree(ms[0].value)] + MemberTrees(ms[1..])
  }

  lemma {:induction false} TreeShape(v: Json, d: nat)
    requires Within(v, d)
    ensures DomTree.Paired(JsonTree(v)) && DomTree.Fits(JsonTree(v), d)
    decreases v, 0
  {
    match v
    case JArray(_, es) => ElementsShape(es, d - 1);
    case JObject(_, ms) => MembersShape(ms, d - 1);
    case _ =>
  }

  lemma {:induction false} ElementsShape(es: seq<Element>, d: nat)
    requires forall k :: 0 <= k < |es| ==> Within(es[k].value, d)
    ensures forall k :: 0 <= k < |es| ==> DomTree.Paired(ElementTrees(es)[k]) && DomTree.Fits(ElementTrees(es)[k], d)
    decreases es, 0
  {
    hide DomTree.Paired, DomTree.Fits, JsonTree, Within;
    if es != [] {
      TreeShape(es[0].value, d);
      ElementsShape(es[1..], d);
    }
  }

  lemma {:induction false} MembersShape(ms: seq<Member>, d: nat)
    requires forall k :: 0 <= k < |ms| ==> Within(ms[k].value, d)
    ensures forall k :: 0 <= k < 2 * |ms| ==> DomTree.Paired(MemberTrees(ms)[k]) && DomTree.Fits(MemberTrees(ms)[k], d)
    decreases ms, 0
  {
    hide DomTree.Paired, DomTree.Fits, JsonTree, Within, Leaf;
    if ms != [] {
      TreeShape(ms[0].value, d);
      LeafShape(ms[0].key, d);
      MembersShape(ms[1..], d);
      forall k | 0 <= k < 2 * |ms| ensures DomTree.Paired(MemberTrees(ms)[k]) && DomTree.Fits(MemberTrees(ms)[k], d) {
        if k >= 2 { assert MemberTrees(ms)[k] == MemberTrees(ms[1..])[k - 2]; }
      }
    }
  }

  lemma LeafShape(key: seq<bv8>, d: nat)
    ensures DomTree.Paired(Leaf(Str, key)) && DomTree.Fits(Leaf(Str, key), d)
  {}

  // ---- a text's rows replay its tree ---------------------------------------------------------

  lemma SliceStands(p: seq<bv8>, at: nat, s: seq<bv8>)
    requires Stands(p, at, s)
    ensures Slice(p, at, |s|) == s
  {}

  lemma ContentStands(p: seq<bv8>, at: nat, content: seq<bv8>)
    requires Stands(p, at, StringText(content))
    ensures Stands(p, at + 1, content)
  {
    assert StringText(content) == [QUOTE] + (content + [QUOTE]);
    StandsCut(p, at, [QUOTE], content + [QUOTE]);
    StandsCut(p, at + 1, content, [QUOTE]);
  }

  lemma LeafCalls(p: seq<bv8>, kind: Kind, off: nat, text: seq<bv8>)
    requires Stands(p, off, text) && kind != Doc && kind != Close && kind != SeqOpen && kind != MapOpen
    ensures RowCalls(p, [Rec(kind, off, |text|)]) == DomTree.Calls(Leaf(kind, text))
  {
    hide Stands;
    SliceStands(p, off, text);
    CallsOne(p, Rec(kind, off, |text|));
  }

  lemma {:induction false} ValueCalls(p: seq<bv8>, v: Json, at: nat, base: nat)
    requires WellFormed(v) && Stands(p, at, Text(v))
    ensures RowCalls(p, Recs(v, at, base)) == DomTree.Calls(JsonTree(v))
    decreases v, 0
  {
    hide Stands, Number, Content, RowCalls, DomTree.CallsAll, ElementRecs, MemberRecs, ElementTrees, MemberTrees, NumKind;
    match v
    case JString(content) => ContentStands(p, at, content); LeafCalls(p, Str, at + 1, content);
    case JNumber(text) => NumberRow(text); LeafCalls(p, NumKind(text), at, text);
    case JLiteral(word) => LeafCalls(p, WordKind(word), at, WordText(word));
    case JArray(gap, es) =>
      if es == [] { NoElements(at + 1, base + 1); ContainerCalls(p, false, [], base, []); }
      else {
        ArrayStands(p, at, gap, es);
        ElementsCalls(p, es, at + 1, base + 1);
        ContainerCalls(p, false, ElementRecs(es, at + 1, base + 1), base, ElementTrees(es));
      }
    case JObject(gap, ms) =>
      if ms == [] { NoMembers(at + 1, base + 1); ContainerCalls(p, true, [], base, []); }
      else {
        ObjectStands(p, at, gap, ms);
        MembersCalls(p, ms, at + 1, base + 1);
        ContainerCalls(p, true, MemberRecs(ms, at + 1, base + 1), base, MemberTrees(ms));
      }
  }

  lemma NumberRow(text: seq<bv8>)
    ensures NumKind(text) == IntNum || NumKind(text) == FloatNum
  {}

  lemma NoElements(at: nat, base: nat)
    ensures ElementRecs([], at, base) == [] && ElementTrees([]) == []
  {}

  lemma NoMembers(at: nat, base: nat)
    ensures MemberRecs([], at, base) == [] && MemberTrees([]) == []
  {}

  lemma NoCalls(p: seq<bv8>)
    ensures RowCalls(p, []) == [] && DomTree.CallsAll<Span>([]) == []
  {}

  /** A container's rows around the rows of its children. */
  lemma ContainerCalls(p: seq<bv8>, isMap: bool, inner: seq<Rec>, base: nat, kids: seq<Tree>)
    requires RowCalls(p, inner) == DomTree.CallsAll(kids) || (inner == [] && kids == [])
    ensures RowCalls(p, Bracketed(isMap, inner, base)) ==
      DomTree.Calls(DomTree.Tree(Span(OpenKind(isMap), []), if isMap then DomStore.Map else DomStore.Seq, kids))
  {
    hide RowCalls, DomTree.CallsAll;
    NoCalls(p);
    var open, close := Rec(OpenKind(isMap), base + 1 + |inner|, 0), Rec(Close, base, 0);
    CallsOne(p, open);
    CallsOne(p, close);
    CallsJoin(p, [open], inner);
    CallsJoin(p, [open] + inner, [close]);
  }

  lemma ArrayStands(p: seq<bv8>, at: nat, gap: seq<bv8>, es: seq<Element>)
    requires Stands(p, at, Text(JArray(gap, es))) && gap == []
    ensures Stands(p, at + 1, ElementsText(es))
  {
    hide ElementsText, Stands;
    assert Text(JArray(gap, es)) == [0x5B] + (ElementsText(es) + [0x5D]);
    StandsCut(p, at, [0x5B], ElementsText(es) + [0x5D]);
    StandsCut(p, at + 1, ElementsText(es), [0x5D]);
  }

  lemma ObjectStands(p: seq<bv8>, at: nat, gap: seq<bv8>, ms: seq<Member>)
    requires Stands(p, at, Text(JObject(gap, ms))) && gap == []
    ensures Stands(p, at + 1, MembersText(ms))
  {
    hide MembersText, Stands;
    assert Text(JObject(gap, ms)) == [0x7B] + (MembersText(ms) + [0x7D]);
    StandsCut(p, at, [0x7B], MembersText(ms) + [0x7D]);
    StandsCut(p, at + 1, MembersText(ms), [0x7D]);
  }

  lemma ElementCut(p: seq<bv8>, at: nat, es: seq<Element>)
    requires es != [] && Stands(p, at, ElementsText(es))
    ensures Stands(p, at + |es[0].before|, Text(es[0].value))
    ensures |es| > 1 ==> Stands(p, at + |ElementText(es[0])| + 1, ElementsText(es[1..]))
  {
    hide Text, Stands;
    var e := es[0];
    var tail := if |es| == 1 then [] else [0x2C] + ElementsText(es[1..]);
    StandsCut(p, at, ElementText(e), tail);
    StandsCut(p, at, e.before + Text(e.value), e.after);
    StandsCut(p, at, e.before, Text(e.value));
    if |es| > 1 { StandsCut(p, at + |ElementText(e)|, [0x2C], ElementsText(es[1..])); }
  }

  lemma {:induction false} ElementsCalls(p: seq<bv8>, es: seq<Element>, at: nat, base: nat)
    requires es != [] && Stands(p, at, ElementsText(es)) && forall k :: 0 <= k < |es| ==> WellFormed(es[k].value)
    ensures RowCalls(p, ElementRecs(es, at, base)) == DomTree.CallsAll(ElementTrees(es))
    decreases es, 0
  {
    hide Stands, RowCalls, DomTree.CallsAll, DomTree.Calls, Recs, Text, ElementText, ElementsText, WellFormed, JsonTree;
    var e := es[0];
    var first := Recs(e.value, at + |e.before|, base);
    ElementCut(p, at, es);
    ValueCalls(p, e.value, at + |e.before|, base);
    var rest := ElementRecs(es[1..], at + |ElementText(e)| + 1, base + |first|);
    if |es| == 1 {
      NoElements(at + |ElementText(e)| + 1, base + |first|);
      NoCalls(p);
    } else {
      ElementsCalls(p, es[1..], at + |ElementText(e)| + 1, base + |first|);
    }
    CallsJoin(p, first, rest);
    DomTree.CallsFront(JsonTree(e.value), ElementTrees(es[1..]));
  }

  lemma KeyCut(p: seq<bv8>, at: nat, m: Member)
    requires Stands(p, at, m.before + StringText(m.key) + m.colon + [0x3A] + m.space)
    ensures Stands(p, at + |m.before|, StringText(m.key))
  {
    hide Stands, StringText;
    StandsCut(p, at, m.before + StringText(m.key) + m.colon + [0x3A], m.space);
    StandsCut(p, at, m.before + StringText(m.key) + m.colon, [0x3A]);
    StandsCut(p, at, m.before + StringText(m.key), m.colon);
    StandsCut(p, at, m.before, StringText(m.key));
  }

  lemma OneMemberCut(p: seq<bv8>, at: nat, m: Member)
    requires Stands(p, at, MemberText(m))
    ensures Stands(p, at + |m.before|, StringText(m.key)) && Stands(p, at + ValueOffset(m), Text(m.value))
  {
    hide Text, Stands, StringText;
    KeyLength(m.key);
    var head := m.before + StringText(m.key) + m.colon + [0x3A] + m.space;
    StandsCut(p, at, head + Text(m.value), m.after);
    StandsCut(p, at, head, Text(m.value));
    KeyCut(p, at, m);
  }

  function BehindFirst(ms: seq<Member>): seq<bv8>
    requires ms != []
  {
    if |ms| == 1 then [] else [0x2C] + MembersText(ms[1..])
  }

  lemma MembersFirst(ms: seq<Member>)
    requires ms != []
    ensures MembersText(ms) == MemberText(ms[0]) + BehindFirst(ms)
  {
    hide MemberText;
  }

  lemma MemberCut(p: seq<bv8>, at: nat, ms: seq<Member>)
    requires ms != [] && Stands(p, at, MembersText(ms))
    ensures Stands(p, at + |ms[0].before|, StringText(ms[0].key))
    ensures Stands(p, at + ValueOffset(ms[0]), Text(ms[0].value))
    ensures |ms| > 1 ==> Stands(p, at + |MemberText(ms[0])| + 1, MembersText(ms[1..]))
  {
    hide Text, Stands, StringText, MemberText, MembersText, ValueOffset;
    MembersFirst(ms);
    StandsCut(p, at, MemberText(ms[0]), BehindFirst(ms));
    OneMemberCut(p, at, ms[0]);
    if |ms| > 1 { StandsCut(p, at + |MemberText(ms[0])|, [0x2C], MembersText(ms[1..])); }
  }

  lemma {:induction false} MembersCalls(p: seq<bv8>, ms: seq<Member>, at: nat, base: nat)
    requires ms != [] && Stands(p, at, MembersText(ms)) && forall k :: 0 <= k < |ms| ==> WellFormed(ms[k].value)
    ensures RowCalls(p, MemberRecs(ms, at, base)) == DomTree.CallsAll(MemberTrees(ms))
    decreases ms, 0
  {
    hide Stands, RowCalls, DomTree.CallsAll, DomTree.Calls, Recs, Text, MemberText, MembersText, WellFormed, JsonTree, Leaf;
    var m := ms[0];
    var key, value := [Rec(Str, at + |m.before| + 1, |m.key|)], Recs(m.value, at + ValueOffset(m), base + 1);
    MemberCut(p, at, ms);
    ContentStands(p, at + |m.before|, m.key);
    LeafCalls(p, Str, at + |m.before| + 1, m.key);
    ValueCalls(p, m.value, at + ValueOffset(m), base + 1);
    var rest := MemberRecs(ms[1..], at + |MemberText(m)| + 1, base + |key + value|);
    if |ms| == 1 {
      NoMembers(at + |MemberText(m)| + 1, base + |key + value|);
      NoCalls(p);
    } else {
      MembersCalls(p, ms[1..], at + |MemberText(m)| + 1, base + |key + value|);
    }
    PairCalls(p, key, value, rest, Leaf(Str, m.key), JsonTree(m.value), MemberTrees(ms[1..]));
  }

  /** A key's row, its value's rows and the rest, against the trees in that order. */
  lemma PairCalls(p: seq<bv8>, key: seq<Rec>, value: seq<Rec>, rest: seq<Rec>, k: Tree, v: Tree, trees: seq<Tree>)
    requires RowCalls(p, key) == DomTree.Calls(k) && RowCalls(p, value) == DomTree.Calls(v)
    requires RowCalls(p, rest) == DomTree.CallsAll(trees)
    ensures RowCalls(p, key + value + rest) == DomTree.CallsAll([k, v] + trees)
  {
    hide RowCalls, DomTree.Calls, DomTree.CallsAll;
    CallsJoin(p, key, value);
    CallsJoin(p, key + value, rest);
    DomTree.CallsFront(v, trees);
    DomTree.CallsFront(k, [v] + trees);
    assert [k, v] + trees == [k] + ([v] + trees);
    DomTree.Regroup([], DomTree.Calls(k), DomTree.Calls(v), DomTree.CallsAll(trees));
    assert DomTree.Calls(k) + DomTree.Calls(v) + DomTree.CallsAll(trees) == DomTree.Calls(k) + (DomTree.Calls(v) + DomTree.CallsAll(trees));
  }

  // ---- the replay as the program runs it -----------------------------------------------------

  /** What the rows promise: they replay one tree that fits the builder's stack. */
  ghost predicate Replays(p: seq<bv8>, rows: seq<Rec>, t: Tree) {
    DomTree.Paired(t) && DomTree.Fits(t, DOM_DEPTH) && RowCalls(p, rows) == DomTree.Calls(t)
  }

  /** The store after k rows. */
  ghost predicate OnTrack(p: seq<bv8>, rows: seq<Rec>, k: nat, s: DomStore.Store<Span>)
    requires k <= |rows|
  {
    DomStore.Sound(DomStore.Empty<Span>()) && DomStore.Run(DomStore.Empty(), RowCalls(p, rows[..k])) == Some(s)
  }

  lemma TrackStart(p: seq<bv8>, rows: seq<Rec>)
    ensures OnTrack(p, rows, 0, DomStore.Empty())
  {}

  /** The next row of a replay finds what it needs and leads on. */
  lemma TrackStep(p: seq<bv8>, rows: seq<Rec>, k: nat, s: DomStore.Store<Span>, t: Tree)
    requires k < |rows| && Replays(p, rows, t) && OnTrack(p, rows, k, s) && DomStore.Sound(s)
    ensures rows[k].kind == Doc ==> OnTrack(p, rows, k + 1, s)
    ensures rows[k].kind != Doc ==>
      && DomTree.CallOk(s, RowCall(p, rows[k]), DOM_DEPTH)
      && forall s' :: DomStore.Step(s, RowCall(p, rows[k])) == Some(s') ==> OnTrack(p, rows, k + 1, s')
  {
    hide DomStore.Run, DomStore.Step, DomTree.CallOk, DomTree.Calls, DomTree.Paired, DomTree.Fits, DomStore.Sound, RowCall;
    TrackStart(p, rows);
    var calls := RowCalls(p, rows);
    CallsNext(p, rows, k);
    if rows[k].kind != Doc {
      CallsSplit(p, rows, k);
      DomTree.SafeTree(DomStore.Empty(), t, DOM_DEPTH);
      var n := |RowCalls(p, rows[..k])|;
      DomTree.SafePrefix(DomStore.Empty(), calls, n, DOM_DEPTH);
    }
  }

  lemma CallsNext(p: seq<bv8>, rows: seq<Rec>, k: nat)
    requires k < |rows|
    ensures RowCalls(p, rows[..k + 1]) == RowCalls(p, rows[..k]) + LastCall(p, rows[k])
    ensures rows[k].kind == Doc ==> RowCalls(p, rows[..k + 1]) == RowCalls(p, rows[..k])
  {
    assert rows[..k + 1][..k] == rows[..k];
  }

  lemma CallsSplit(p: seq<bv8>, rows: seq<Rec>, k: nat)
    requires k < |rows| && rows[k].kind != Doc
    ensures var calls, n := RowCalls(p, rows), |RowCalls(p, rows[..k])|;
      n < |calls| && calls[..n] == RowCalls(p, rows[..k]) && calls[n] == RowCall(p, rows[k])
      && calls[..n + 1] == RowCalls(p, rows[..k + 1])
  {
    hide RowCall, RowCalls;
    CallsNext(p, rows, k);
    assert rows == rows[..k + 1] + rows[k + 1..];
    CallsJoin(p, rows[..k + 1], rows[k + 1..]);
    PrefixFacts(RowCalls(p, rows[..k]), RowCall(p, rows[k]), RowCalls(p, rows[k + 1..]));
  }

  lemma PrefixFacts<T>(a: seq<T>, x: T, b: seq<T>)
    ensures var s := a + [x] + b; s[..|a|] == a && s[|a|] == x && s[..|a| + 1] == a + [x]
  {}

  /** The repair branch: a key whose map closes under it is paired with a null. */
  method PairWithNull(dom: DomStore.Dom<Span>)
    requires DomStore.Sound(dom.State()) && dom.stack != [] && dom.pending[|dom.stack| - 1].Some?
    modifies dom
    ensures DomStore.Sound(dom.State()) && dom.stack == old(dom.stack)
  {
    var d := |dom.stack| - 1;
    var top, key := dom.stack[d], dom.pending[d].value;
    DomStore.AddSound(dom.State(), DomStore.Fresh(Span(Nil, []), DomStore.Leaf));
    var id := |dom.nodes|;
    dom.nodes := dom.nodes + [DomStore.Fresh(Span(Nil, []), DomStore.Leaf)];
    DomStore.LinkSound(dom.nodes, top, key);
    dom.LinkChild(top, key);
    DomStore.LinkSound(dom.nodes, top, id);
    dom.LinkChild(top, id);
    dom.pending := dom.pending[d := None];
  }

  /**
   * dom_from_tape. When the rows replay a tree it returns 0 with one document, the tree's nodes reached through the
   * sibling links, the stack empty again, and the repair branch never taken.
   */
  method FromTape(p: seq<bv8>, rows: seq<Rec>, ghost t: Tree) returns (ok: bool, dom: DomStore.Dom<Span>, repaired: bool)
    ensures fresh(dom)
    ensures Replays(p, rows, t) ==>
      && ok && !repaired && dom.docs == [0] && dom.stack == [] && |dom.nodes| == DomTree.Size(t)
      && DomTree.ReadNode(dom.nodes, 0) == Some(t)
  {
    hide OnTrack, Replays, DomStore.Sound, DomStore.Step, RowCall, DomTree.CallOk;
    dom := new DomStore.Dom<Span>();
    ok, repaired := false, false;
    TrackStart(p, rows);
    EmptySound();
    var k := 0;
    while k < |rows|
      invariant k <= |rows| && fresh(dom) && DomStore.Sound(dom.State())
      invariant Replays(p, rows, t) ==> !repaired && OnTrack(p, rows, k, dom.State())
    {
      ghost var s := dom.State();
      var r := rows[k];
      if Replays(p, rows, t) { TrackStep(p, rows, k, s, t); }
      RowCases(p, r, s);
      DomStore.SoundTop(s);
      if r.kind == Doc {
      } else if Opens(r.kind) {
        if |dom.stack| >= DOM_DEPTH {
          return;
        }
        dom.OnBegin(Span(r.kind, []), r.kind == MapOpen);
      } else if r.kind == Close {
        if |dom.stack| == 0 {
          return;
        }
        var d := |dom.stack| - 1;
        if dom.nodes[dom.stack[d]].kind == DomStore.Map && dom.pending[d] != None {
          repaired := true;
          PairWithNull(dom);
        }
        dom.OnEnd();
      } else {
        dom.OnItem(Span(r.kind, Slice(p, r.off, r.len)));
      }
      k := k + 1;
    }
    ok := |dom.stack| == 0;
    if Replays(p, rows, t) { TrackEnd(p, rows, dom.State(), t); }
  }

  lemma EmptySound()
    ensures DomStore.Sound(DomStore.Empty<Span>())
  {}

  /** What the calls of the three sorts of rows are, and what they need. */
  lemma RowCases(p: seq<bv8>, r: Rec, s: DomStore.Store<Span>)
    requires DomStore.Sound(s)
    ensures r.kind == Doc ==> !Opens(r.kind)
    ensures Opens(r.kind) ==>
      && RowCall(p, r) == DomStore.Begin(Span(r.kind, []), r.kind == MapOpen)
      && (DomTree.CallOk(s, RowCall(p, r), DOM_DEPTH) <==> |s.stack| < DOM_DEPTH)
    ensures r.kind == Close ==>
      && RowCall(p, r) == DomStore.End
      && (DomTree.CallOk(s, DomStore.End, DOM_DEPTH) <==>
          (s.stack != [] && (s.nodes[DomStore.Top(s.stack)].kind == DomStore.Map ==> DomStore.Top(s.pending) == None)))
    ensures r.kind != Doc && !Opens(r.kind) && r.kind != Close ==>
      RowCall(p, r) == DomStore.Item(Span(r.kind, Slice(p, r.off, r.len)))
  {}

  lemma TrackEnd(p: seq<bv8>, rows: seq<Rec>, s: DomStore.Store<Span>, t: Tree)
    requires Replays(p, rows, t) && OnTrack(p, rows, |rows|, s)
    ensures s.docs == [0] && s.stack == [] && |s.nodes| == DomTree.Size(t) && |s.nodes| > 0
    ensures DomTree.ReadNode(s.nodes, 0) == Some(t)
  {
    hide DomStore.Run, DomTree.Calls, DomTree.Paired, DomTree.Fits, DomTree.ReadNode;
    assert rows[..|rows|] == rows;
    DomTree.Builds(t);
  }

  /** Accepted columns replay the tree of their text. */
  lemma AcceptedReplays(p: seq<bv8>, open: nat, v: Json, tail: seq<bv8>)
    requires open < |p| && JsonSound.CleanText(p[open..], v, tail)
    ensures Replays(p, [Rec(Doc, 0, 0)] + Recs(v, open, 1), JsonTree(v))
  {
    hide Clean, Text, Recs, JsonTree, DomTree.Calls, DomTree.Paired, DomTree.Fits;
    assert p[open..] == Text(v) + tail;
    assert p[open..open + |Text(v)|] == Text(v);
    ValueCalls(p, v, open, 1);
    CallsJoin(p, [Rec(Doc, 0, 0)], Recs(v, open, 1));
    CallsOne(p, Rec(Doc, 0, 0));
    TreeShape(v, WALK_DEPTH);
    FitsMore(JsonTree(v), WALK_DEPTH, DOM_DEPTH);
  }

  lemma {:induction false} FitsMore(t: Tree, d: nat, d': nat)
    requires DomTree.Fits(t, d) && d <= d'
    ensures DomTree.Fits(t, d')
    decreases t
  {
    if t.kind != DomStore.Leaf {
      forall k | 0 <= k < |t.kids| ensures DomTree.Fits(t.kids[k], d' - 1) { FitsMore(t.kids[k], d - 1, d' - 1); }
    }
  }

  // ---- the document against the bytes ----------------------------------------------------------

  /** A document in preorder: its leaves with their kind and text, its containers with their two ends. */
  datatype Mark = LeafMark(kind: Kind, text: seq<bv8>) | OpenMark(isMap: bool) | CloseMark

  function Marks(t: Tree): seq<Mark> {
    if t.kind == DomStore.Leaf then [LeafMark(t.data.kind, t.data.text)]
    else [OpenMark(t.kind == DomStore.Map)] + MarksAll(t.kids) + [CloseMark]
  }

  function MarksAll(ts: seq<Tree>): seq<Mark> {
    if ts == [] then [] else MarksAll(ts[..|ts| - 1]) + Marks(ts[|ts| - 1])
  }

  /** The marks of a tape's rows, from the bytes they span. */
  predicate MarkIs(p: seq<bv8>, r: Rec, m: Mark) {
    match m
    case OpenMark(isMap) => r.kind == if isMap then MapOpen else SeqOpen
    case CloseMark => r.kind == Close
    case LeafMark(kind, text) =>
      r.kind == kind && JsonTokens.Scalar(kind) && r.off + r.len <= |p| && p[r.off..r.off + r.len] == text
  }

  predicate MarksAre(p: seq<bv8>, rows: seq<Rec>, marks: seq<Mark>) {
    |rows| == |marks| && forall k :: 0 <= k < |rows| ==> MarkIs(p, rows[k], marks[k])
  }

  /** The document's leaves and containers are the tokens of the bytes from position from on. */
  ghost predicate DocSpells(p: seq<bv8>, from: nat, t: Tree) {
    exists rows :: JsonTokens.RowsSpell(p, from, rows) && MarksAre(p, rows[1..], Marks(t))
  }

  function CallMark(c: Call): Mark {
    match c
    case Item(data) => LeafMark(data.kind, data.text)
    case Begin(data, isMap) => OpenMark(isMap)
    case End => CloseMark
  }

  function CallMarks(calls: seq<Call>): seq<Mark> { seq(|calls|, k requires 0 <= k < |calls| => CallMark(calls[k])) }

  lemma MarksJoin(a: seq<Call>, b: seq<Call>)
    ensures CallMarks(a + b) == CallMarks(a) + CallMarks(b)
  {
    hide CallMark;
  }

  /** A tree's calls are its marks. */
  lemma {:induction false} TreeMarks(t: Tree)
    ensures CallMarks(DomTree.Calls(t)) == Marks(t)
    decreases t, 1
  {
    hide DomTree.CallsAll, MarksAll;
    if t.kind != DomStore.Leaf {
      var open: Call, close: Call := DomStore.Begin(t.data, t.kind == DomStore.Map), DomStore.End;
      AllMarks(t.kids);
      MarksJoin([open] + DomTree.CallsAll(t.kids), [close]);
      MarksJoin([open], DomTree.CallsAll(t.kids));
      assert CallMarks([open]) == [OpenMark(t.kind == DomStore.Map)] && CallMarks([close]) == [CloseMark];
    }
  }

  lemma {:induction false} AllMarks(ts: seq<Tree>)
    ensures CallMarks(DomTree.CallsAll(ts)) == MarksAll(ts)
    decreases ts, 0
  {
    hide DomTree.Calls, Marks, CallMark;
    if ts != [] {
      AllMarks(ts[..|ts| - 1]);
      TreeMarks(ts[|ts| - 1]);
      MarksJoin(DomTree.CallsAll(ts[..|ts| - 1]), DomTree.Calls(ts[|ts| - 1]));
    }
  }

  predicate Spanned(p: seq<bv8>, rows: seq<Rec>) {
    forall k :: 0 <= k < |rows| ==> rows[k].kind != Doc && (JsonTokens.Scalar(rows[k].kind) ==> rows[k].off + rows[k].len <= |p|)
  }

  /** The rows behind DOC lead to one call each. */
  lemma {:induction false} RowsMarks(p: seq<bv8>, rows: seq<Rec>)
    requires Spanned(p, rows)
    ensures MarksAre(p, rows, CallMarks(RowCalls(p, rows)))
    decreases |rows|
  {
    hide RowCall, CallMark, MarkIs;
    if rows != [] {
      var n := |rows| - 1;
      RowsMarks(p, rows[..n]);
      RowMark(p, rows[n]);
      MarksJoin(RowCalls(p, rows[..n]), [RowCall(p, rows[n])]);
      assert CallMarks([RowCall(p, rows[n])]) == [CallMark(RowCall(p, rows[n]))];
    }
  }

  lemma RowMark(p: seq<bv8>, r: Rec)
    requires r.kind != Doc && (JsonTokens.Scalar(r.kind) ==> r.off + r.len <= |p|)
    ensures MarkIs(p, r, CallMark(RowCall(p, r)))
  {}

  lemma {:induction false} TilesSpanned(p: seq<bv8>, rows: seq<Rec>, from: nat, to: nat)
    requires from <= to <= |p| && JsonTokens.Tiles(p, rows, from, to)
    ensures Spanned(p, rows)
    decreases |rows|
  {
    hide JsonTokens.GapEnd, JsonTokens.Apart, JsonTokens.MinusDigits, JsonTokens.NumberChars;
    if rows != [] {
      var i := JsonTokens.GapEnd(p, from, to);
      TilesSpanned(p, rows[1..], JsonTokens.TokenEnd(rows[0], i), to);
      forall k | 0 <= k < |rows|
        ensures rows[k].kind != Doc && (JsonTokens.Scalar(rows[k].kind) ==> rows[k].off + rows[k].len <= |p|)
      {
        if k > 0 { assert rows[k] == rows[1..][k - 1]; }
      }
    }
  }

  /** The document of a text: every leaf's kind and text, and every container, is what the bytes say. */
  lemma DocumentSpells(p: seq<bv8>, v: Json, tail: seq<bv8>)
    requires JsonLinks.TapeText(p, v, tail)
    ensures DocSpells(p, Lead(p, 0), JsonTree(v))
  {
    hide JsonSound.CleanText, Recs, JsonTree, Run, DomTree.Calls, JsonTokens.Tiles, RowCalls, Marks, MarksAre, Spanned, Walk;
    var open := Lead(p, 0);
    var rows := [Rec(Doc, 0, 0)] + Recs(v, open, 1);
    JsonLinks.TextFirst(p, open, v, tail);
    JsonSound.AcceptedRows(p, open, v, tail);
    JsonTokens.LeadFree(p);
    JsonTokens.WalksSpell(p, open);
    TilesSpanned(p, rows[1..], open, |p|);
    AcceptedReplays(p, open, v, tail);
    assert rows[1..] == Recs(v, open, 1);
    DocCalls(p, rows);
    RowsMarks(p, rows[1..]);
    TreeMarks(JsonTree(v));
  }

  lemma DocCalls(p: seq<bv8>, rows: seq<Rec>)
    requires rows != [] && rows[0] == Rec(Doc, 0, 0)
    ensures RowCalls(p, rows) == RowCalls(p, rows[1..])
  {
    hide RowCalls;
    CallsJoin(p, rows[..1], rows[1..]);
    CallsOne(p, rows[0]);
    assert rows == rows[..1] + rows[1..] && rows[..1] == [rows[0]];
  }

  /** The rows of a text that starts behind the whitespace of p. */
  function RowsOf(p: seq<bv8>, v: Json): seq<Rec> { [Rec(Doc, 0, 0)] + Recs(v, Lead(p, 0), 1) }

  /**
   * The fast route of yeptris_parse_json and the document it leads to: every clean text is taken, and where no token
   * is 2^24 bytes or longer the document holds its tree, each leaf of the kind and text its bytes say, and the text is left to the slow route exactly when some
   * member's name is too long.
   */
  method ParseDocument(p: seq<bv8>) returns (ok: bool, long: bool, dom: DomStore.Dom<Span>)
    ensures fresh(dom)
    ensures ok <==> exists v, tail :: JsonLinks.TapeText(p, v, tail)
    ensures ok ==> forall v, tail :: JsonLinks.TapeText(p, v, tail) && Short(RowsOf(p, v)) ==>
      && (long <==> JsonLongKey.LongMember(v))
      && dom.docs == [0] && dom.stack == [] && |dom.nodes| > 0
      && DomTree.ReadNode(dom.nodes, 0) == Some(JsonTree(v)) && DocSpells(p, Lead(p, 0), JsonTree(v))
  {
    hide DocSpells, JsonLinks.TapeText, JsonTree, Recs, DomTree.ReadNode, Replays, JsonLinks.Linked, AllThrough, Short, JsonLongKey.LongMember;
    var parsed, tooLong, w := JsonLinks.ParseRecords(p);
    ok, long := parsed, tooLong;
    if !parsed {
      dom := new DomStore.Dom<Span>();
      return;
    }
    ghost var v, tail :| JsonLinks.TapeText(p, v, tail);
    ghost var rows := w.Rows();
    TextReplays(p, v, tail);
    var columns: seq<Rec>, k := [], 0;
    while k < w.count
      invariant k <= w.count && columns == rows[..k]
    {
      columns := columns + [Rec(w.kinds[k], w.offs[k], w.lens[k])];
      k := k + 1;
    }
    assert columns == rows;
    var built, d, repaired := FromTape(p, columns, JsonTree(v));
    dom := d;
    TreeSize(JsonTree(v));
    DocumentSpells(p, v, tail);
    forall v', tail' | JsonLinks.TapeText(p, v', tail') ensures JsonTree(v') == JsonTree(v) && RowsOf(p, v') == RowsOf(p, v) {
      SameTree(p, v, tail, v', tail');
    }
  }

  lemma TreeSize(t: Tree)
    ensures DomTree.Size(t) > 0
  {}

  lemma TextReplays(p: seq<bv8>, v: Json, tail: seq<bv8>)
    requires JsonLinks.TapeText(p, v, tail)
    ensures Replays(p, [Rec(Doc, 0, 0)] + Recs(v, Lead(p, 0), 1), JsonTree(v))
  {
    hide JsonSound.CleanText, Replays, Recs, JsonTree;
    JsonLinks.TextFirst(p, Lead(p, 0), v, tail);
    AcceptedReplays(p, Lead(p, 0), v, tail);
  }

  /** A text has one tree. */
  lemma SameTree(p: seq<bv8>, v: Json, tail: seq<bv8>, v': Json, tail': seq<bv8>)
    requires JsonLinks.TapeText(p, v, tail) && JsonLinks.TapeText(p, v', tail')
    ensures JsonTree(v') == JsonTree(v) && RowsOf(p, v') == RowsOf(p, v)
  {
    hide JsonSound.CleanText, Recs, JsonTree, Run, DomTree.Calls, DomStore.Run, DomTree.ReadNode;
    var open := Lead(p, 0);
    JsonLinks.TextFirst(p, open, v, tail);
    JsonSound.AcceptedRows(p, open, v, tail);
    JsonSound.AcceptedRows(p, open, v', tail');
    AcceptedReplays(p, open, v, tail);
    AcceptedReplays(p, open, v', tail');
    DomTree.Builds(JsonTree(v));
    DomTree.Builds(JsonTree(v'));
  }
}
